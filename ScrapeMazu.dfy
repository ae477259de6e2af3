/** scripts/scrapeMazu.js: collect the list page's links, de-duplicate them by URL, read each
    detail page (skipping those that fail), clean the texts, then splice the new array into the
    `mazu` entry of the database source file. Requests, HTML parsing, file reads and writes,
    the pause between requests and `JSON.stringify` are outside the model: what they yield is an
    input. */
module ScrapeMazu {
  import opened Wrappers
  import opened Text
  import opened Fortunes
  import opened ScrapeCommon

  const BaseUrl: string := "https://www.8327777.org.tw/"

  function StartsWith(s: string, prefix: string): bool {
    OccursAt(s, prefix, 0)
  }

  /** `href.startsWith('http') ? href : BASE_URL + href`. */
  function AbsoluteUrl(href: string): (url: string)
    ensures StartsWith(url, "http")
    ensures StartsWith(href, "http") ==> url == href
    ensures !StartsWith(href, "http") ==> url == BaseUrl + href
  {
    if StartsWith(href, "http") then href
    else
      assert (BaseUrl + href)[..4] == BaseUrl[..4];
      BaseUrl + href
  }

  /** Absolutising is idempotent: a URL already absolute is kept. */
  lemma AbsoluteUrlIdempotent(href: string)
    ensures AbsoluteUrl(AbsoluteUrl(href)) == AbsoluteUrl(href)
  {
  }

  datatype MazuLink = MazuLink(url: string, title: string)

  /** Every URL is absolute and every title trimmed. */
  predicate WellFormedLinks(ls: seq<MazuLink>) {
    forall i :: 0 <= i < |ls| ==> StartsWith(ls[i].url, "http") && Trimmed(ls[i].title)
  }

  lemma WellFormedLinksSnoc(ls: seq<MazuLink>, l: MazuLink)
    requires WellFormedLinks(ls) && StartsWith(l.url, "http") && Trimmed(l.title)
    ensures WellFormedLinks(ls + [l])
  {
  }

  /** The list callback: anchors with a truthy href, made absolute, titled by their trimmed text. */
  function KeptMazuLinks(anchors: seq<Anchor>): (ls: seq<MazuLink>)
    ensures |ls| <= |anchors|
    ensures WellFormedLinks(ls)
  {
    if anchors == [] then []
    else
      var init := KeptMazuLinks(anchors[..|anchors| - 1]);
      var a := anchors[|anchors| - 1];
      if HrefSet(a.href) then
        var l := MazuLink(AbsoluteUrl(a.href.value), Trim(a.text));
        WellFormedLinksSnoc(init, l);
        init + [l]
      else init
  }

  /** With every href set, one link per anchor. */
  lemma {:induction false} AllHrefsKept(anchors: seq<Anchor>)
    requires forall i :: 0 <= i < |anchors| ==> HrefSet(anchors[i].href)
    ensures |KeptMazuLinks(anchors)| == |anchors|
  {
    if anchors != [] {
      AllHrefsKept(anchors[..|anchors| - 1]);
    }
  }

  method CollectMazuLinks(anchors: seq<Anchor>) returns (links: seq<MazuLink>)
    ensures links == KeptMazuLinks(anchors)
  {
    links := [];
    for i := 0 to |anchors|
      invariant links == KeptMazuLinks(anchors[..i])
    {
      assert anchors[..i + 1][..i] == anchors[..i];
      var href := anchors[i].href;
      if HrefSet(href) {
        links := links + [MazuLink(AbsoluteUrl(href.value), Trim(anchors[i].text))];
      }
    }
    assert anchors[..|anchors|] == anchors;
  }

  // The `Map` of line 36 is modelled by its values in insertion order, each value carrying its
  // own key `key(value)`; keys are only ever compared for equality, so the model is stated for
  // any key type.

  /** The keys present among some values. */
  function Keys<T, K(==)>(m: seq<T>, key: T -> K): set<K> {
    set i | 0 <= i < |m| :: key(m[i])
  }

  lemma KeysSnoc<T, K>(m: seq<T>, key: T -> K, l: T)
    ensures Keys(m + [l], key) == Keys(m, key) + {key(l)}
  {
    var s := m + [l];
    forall x | x in Keys(s, key) ensures x in Keys(m, key) + {key(l)} {
      var i :| 0 <= i < |s| && key(s[i]) == x;
      if i < |m| { assert s[i] == m[i]; }
    }
    forall x | x in Keys(m, key) ensures x in Keys(s, key) {
      var i :| 0 <= i < |m| && key(m[i]) == x;
      assert s[i] == m[i];
    }
    assert s[|m|] == l;
  }

  /** Where a key sits among the values stored so far. */
  function KeyPos<T, K(==)>(m: seq<T>, key: T -> K, k: K): (r: Option<nat>)
    ensures r.Some? ==> r.value < |m| && key(m[r.value]) == k
    ensures r.None? ==> k !in Keys(m, key)
  {
    if m == [] then None
    else if key(m[|m| - 1]) == k then Some(|m| - 1)
    else
      var r := KeyPos(m[..|m| - 1], key, k);
      if r.None? then
        KeysSnoc(m[..|m| - 1], key, m[|m| - 1]);
        assert m == m[..|m| - 1] + [m[|m| - 1]];
        None
      else r
  }

  /** `map.set(key(l), l)`: an existing key keeps its place and takes the new value; a new key
      goes last. */
  function MapSet<T, K(==)>(m: seq<T>, key: T -> K, l: T): seq<T> {
    match KeyPos(m, key, key(l))
    case Some(p) => m[p := l]
    case None => m + [l]
  }

  /** The values of a `Map` after setting every element of `ls`, in order, under its key. */
  function MapValues<T, K(==)>(ls: seq<T>, key: T -> K): seq<T> {
    if ls == [] then [] else MapSet(MapValues(ls[..|ls| - 1], key), key, ls[|ls| - 1])
  }

  predicate DistinctKeys<T, K(==)>(m: seq<T>, key: T -> K) {
    forall i, j :: 0 <= i < j < |m| ==> key(m[i]) != key(m[j])
  }

  /** The position of the last value with a given key. */
  function LastKeyPos<T, K(==)>(ls: seq<T>, key: T -> K, k: K): (p: nat)
    requires k in Keys(ls, key)
    ensures p < |ls| && key(ls[p]) == k
    ensures forall j :: p < j < |ls| ==> key(ls[j]) != k
  {
    var init := ls[..|ls| - 1];
    KeysSnoc(init, key, ls[|ls| - 1]);
    assert ls == init + [ls[|ls| - 1]];
    if key(ls[|ls| - 1]) == k then |ls| - 1
    else LastKeyPos(init, key, k)
  }

  /** The position of the first value with a given key. */
  function FirstKeyPos<T, K(==)>(ls: seq<T>, key: T -> K, k: K): (p: nat)
    requires k in Keys(ls, key)
    ensures p < |ls| && key(ls[p]) == k
    ensures forall j :: 0 <= j < p ==> key(ls[j]) != k
  {
    var init := ls[..|ls| - 1];
    KeysSnoc(init, key, ls[|ls| - 1]);
    assert ls == init + [ls[|ls| - 1]];
    if k in Keys(init, key) then FirstKeyPos(init, key, k)
    else
      assert forall j :: 0 <= j < |init| ==> key(init[j]) in Keys(init, key);
      |ls| - 1
  }

  /** One `map.set`: the new key becomes a key, every old key keeps its place, and a new key goes
      last. */
  lemma MapSetShape<T, K>(v: seq<T>, key: T -> K, l: T)
    ensures var u := MapSet(v, key, l);
      && Keys(u, key) == Keys(v, key) + {key(l)}
      && |v| <= |u| <= |v| + 1
      && (forall k :: 0 <= k < |v| ==> key(u[k]) == key(v[k]))
      && (|u| == |v| + 1 ==> u[|v|] == l && key(l) !in Keys(v, key))
  {
    var u := MapSet(v, key, l);
    match KeyPos(v, key, key(l))
    case Some(p) =>
      assert u == v[p := l];
      forall x | x in Keys(u, key) ensures x in Keys(v, key) {
        var i :| 0 <= i < |u| && key(u[i]) == x;
        assert key(v[i]) == x;
      }
      forall x | x in Keys(v, key) ensures x in Keys(u, key) {
        var i :| 0 <= i < |v| && key(v[i]) == x;
        assert key(u[i]) == x;
      }
      assert key(l) in Keys(v, key);
    case None =>
      assert u == v + [l];
      KeysSnoc(v, key, l);
  }

  /** One `map.set` keeps the keys distinct. */
  lemma MapSetDistinct<T, K>(v: seq<T>, key: T -> K, l: T)
    requires DistinctKeys(v, key)
    ensures DistinctKeys(MapSet(v, key, l), key)
  {
    var u := MapSet(v, key, l);
    MapSetShape(v, key, l);
    forall i, j | 0 <= i < j < |u| ensures key(u[i]) != key(u[j]) {
      assert key(u[i]) == key(v[i]);
      if j == |v| {
        assert key(v[i]) in Keys(v, key);
      } else {
        assert key(u[j]) == key(v[j]);
      }
    }
  }

  /** After one `map.set`, the value under the new key is the new one and every other value is
      the one that was there. */
  lemma MapSetEntries<T, K>(v: seq<T>, key: T -> K, l: T)
    requires DistinctKeys(v, key)
    ensures var u := MapSet(v, key, l);
      forall k :: 0 <= k < |u| ==> (key(u[k]) == key(l) ==> u[k] == l) && (key(u[k]) != key(l) ==> k < |v| && u[k] == v[k])
  {
  }

  /** No key is lost and none is added. */
  lemma {:induction false} MapValuesKeys<T, K>(ls: seq<T>, key: T -> K)
    ensures var u := MapValues(ls, key); Keys(u, key) == Keys(ls, key) && |u| <= |ls|
  {
    if ls != [] {
      var init := ls[..|ls| - 1];
      var l := ls[|ls| - 1];
      assert ls == init + [l];
      KeysSnoc(init, key, l);
      MapValuesKeys(init, key);
      MapSetShape(MapValues(init, key), key, l);
    }
  }

  /** One value per key. */
  lemma {:induction false} MapValuesDistinct<T, K>(ls: seq<T>, key: T -> K)
    ensures DistinctKeys(MapValues(ls, key), key)
  {
    if ls != [] {
      var init := ls[..|ls| - 1];
      MapValuesDistinct(init, key);
      MapSetDistinct(MapValues(init, key), key, ls[|ls| - 1]);
    }
  }

  lemma LastKeyPosSnoc<T, K>(init: seq<T>, key: T -> K, l: T, k: K)
    requires k in Keys(init, key) && k != key(l)
    ensures k in Keys(init + [l], key) && LastKeyPos(init + [l], key, k) == LastKeyPos(init, key, k)
  {
    KeysSnoc(init, key, l);
  }

  lemma FirstKeyPosSnoc<T, K>(init: seq<T>, key: T -> K, l: T, k: K)
    requires k in Keys(init, key)
    ensures k in Keys(init + [l], key) && FirstKeyPos(init + [l], key, k) == FirstKeyPos(init, key, k)
  {
    KeysSnoc(init, key, l);
  }

  /** Appending a value keeps the order of first appearance of two keys met before it, and puts a
      new key after every key met before it. */
  lemma FirstKeyOrderSnoc<T, K>(init: seq<T>, key: T -> K, l: T, x: K, y: K)
    requires x in Keys(init, key)
    requires y in Keys(init, key) || (y == key(l) && key(l) !in Keys(init, key))
    requires y in Keys(init, key) ==> FirstKeyPos(init, key, x) < FirstKeyPos(init, key, y)
    ensures FirstSetBefore(init + [l], key, x, y)
  {
    KeysSnoc(init, key, l);
    FirstKeyPosSnoc(init, key, l, x);
    if y in Keys(init, key) {
      FirstKeyPosSnoc(init, key, l, y);
    }
  }

  /** Each value kept is the last one set under its key. */
  lemma {:induction false} MapValuesLast<T, K>(ls: seq<T>, key: T -> K)
    ensures var u := MapValues(ls, key);
      forall k :: 0 <= k < |u| ==> key(u[k]) in Keys(ls, key) && u[k] == ls[LastKeyPos(ls, key, key(u[k]))]
  {
    if ls != [] {
      var init := ls[..|ls| - 1];
      var l := ls[|ls| - 1];
      assert ls == init + [l];
      KeysSnoc(init, key, l);
      var v := MapValues(init, key);
      var u := MapValues(ls, key);
      MapValuesLast(init, key);
      assert forall k :: 0 <= k < |MapValues(init, key)| ==>
        key(MapValues(init, key)[k]) in Keys(init, key) &&
        MapValues(init, key)[k] == init[LastKeyPos(init, key, key(MapValues(init, key)[k]))];
      MapValuesKeys(init, key);
      MapValuesDistinct(init, key);
      assert u == MapSet(v, key, l);
      MapSetEntries(v, key, l);
      forall k | 0 <= k < |u| ensures key(u[k]) in Keys(ls, key) && u[k] == ls[LastKeyPos(ls, key, key(u[k]))] {
        if key(u[k]) != key(l) {
          assert u[k] == v[k];
          LastKeyPosSnoc(init, key, l, key(v[k]));
        }
      }
    }
  }

  /** Both keys were set, and `x` was first set before `y`. */
  predicate FirstSetBefore<T, K(==)>(ls: seq<T>, key: T -> K, x: K, y: K) {
    x in Keys(ls, key) && y in Keys(ls, key) && FirstKeyPos(ls, key, x) < FirstKeyPos(ls, key, y)
  }

  /** The values are kept in the order their key was first set. */
  predicate InFirstSetOrder<T, K(==)>(ls: seq<T>, key: T -> K, u: seq<T>) {
    forall k1, k2 :: 0 <= k1 < k2 < |u| ==> FirstSetBefore(ls, key, key(u[k1]), key(u[k2]))
  }

  /** The order is kept by a step that keeps every old key in place and appends only a new key. */
  lemma InFirstSetOrderSnoc<T, K>(init: seq<T>, key: T -> K, l: T, v: seq<T>, u: seq<T>)
    requires InFirstSetOrder(init, key, v) && Keys(v, key) == Keys(init, key)
    requires |v| <= |u| <= |v| + 1
    requires forall k :: 0 <= k < |v| ==> key(u[k]) == key(v[k])
    requires |u| == |v| + 1 ==> u[|v|] == l && key(l) !in Keys(v, key)
    ensures InFirstSetOrder(init + [l], key, u)
  {
    forall k1, k2 | 0 <= k1 < k2 < |u| ensures FirstSetBefore(init + [l], key, key(u[k1]), key(u[k2])) {
      assert key(u[k1]) == key(v[k1]) && key(v[k1]) in Keys(v, key);
      if k2 < |v| {
        assert key(u[k2]) == key(v[k2]) && key(v[k2]) in Keys(v, key);
      } else {
        assert u[k2] == l && key(l) !in Keys(init, key);
      }
      FirstKeyOrderSnoc(init, key, l, key(u[k1]), key(u[k2]));
    }
  }

  lemma {:induction false} MapValuesOrder<T, K>(ls: seq<T>, key: T -> K)
    ensures InFirstSetOrder(ls, key, MapValues(ls, key))
  {
    if ls != [] {
      var init := ls[..|ls| - 1];
      var l := ls[|ls| - 1];
      assert ls == init + [l];
      var v := MapValues(init, key);
      MapValuesOrder(init, key);
      MapValuesKeys(init, key);
      MapSetShape(v, key, l);
      InFirstSetOrderSnoc(init, key, l, v, MapSet(v, key, l));
    }
  }

  /** The key of a link in the `Map` of line 36. */
  function UrlOf(l: MazuLink): string {
    l.url
  }

  /** `[...new Map(links.map(item => [item.url, item])).values()]`. */
  function UniqueByUrl(ls: seq<MazuLink>): seq<MazuLink> {
    MapValues(ls, UrlOf)
  }

  /** One entry per URL, no URL lost, entries in the order their URL first appeared, and each
      entry is the last link listed with its URL (the value a JavaScript `Map` keeps when a key is
      set again). */
  lemma UniqueByUrlSpec(ls: seq<MazuLink>)
    ensures var u := UniqueByUrl(ls);
      && DistinctKeys(u, UrlOf)
      && Keys(u, UrlOf) == Keys(ls, UrlOf)
      && |u| <= |ls|
      && (forall k :: 0 <= k < |u| ==> u[k].url in Keys(ls, UrlOf) && u[k] == ls[LastKeyPos(ls, UrlOf, u[k].url)])
      && InFirstSetOrder(ls, UrlOf, u)
  {
    MapValuesKeys(ls, UrlOf);
    MapValuesDistinct(ls, UrlOf);
    MapValuesLast(ls, UrlOf);
    MapValuesOrder(ls, UrlOf);
  }

  /** What the detail page yields, before the script's clean-up: the heading text, the texts of
      the poem's `.block` elements (None when there is no `.grid-item-poems` element), the poem
      element's whole text, the explanation element's text (None when it is missing) and the text
      of the first `.grid-item-text`. */
  datatype MazuPage = MazuPage(
    heading: string,
    poemBlocks: Option<seq<string>>,
    poemText: string,
    explainText: Option<string>,
    firstText: string)

  /** `.map((i, el) => $(el).text().trim())`: every block trimmed, in order. */
  function TrimAll(blocks: seq<string>): (r: seq<string>)
    ensures |r| == |blocks|
    ensures forall i :: 0 <= i < |blocks| ==> r[i] == Trim(blocks[i])
  {
    if blocks == [] then [] else [Trim(blocks[0])] + TrimAll(blocks[1..])
  }

  /** Lines 68-74: the trimmed blocks joined by newlines, or the whole trimmed text when that is
      empty; nothing without a poem element. */
  function RawPoem(page: MazuPage): (r: string)
    ensures page.poemBlocks.None? ==> r == ""
    ensures page.poemBlocks.Some? && |page.poemBlocks.value| == 0 ==> r == Trim(page.poemText)
    ensures page.poemBlocks.Some? && |page.poemBlocks.value| == 1 ==>
      r == (if Trim(page.poemBlocks.value[0]) == "" then Trim(page.poemText) else Trim(page.poemBlocks.value[0]))
    ensures page.poemBlocks.Some? && |page.poemBlocks.value| > 1 ==>
      && r == Join(TrimAll(page.poemBlocks.value), "\n")
      && |Trim(page.poemBlocks.value[0])| < |r| && r[|Trim(page.poemBlocks.value[0])|] == '\n'
  {
    match page.poemBlocks
    case None => ""
    case Some(blocks) =>
      var joined := Join(TrimAll(blocks), "\n");
      if joined == "" then Trim(page.poemText) else joined
  }

  /** A poem that arrived on one line has its commas turned into line breaks and its full stops
      dropped; a poem that already has line breaks is kept. */
  function CleanMazuPoem(poem: string): (r: string)
    ensures poem == "" || '\n' in poem ==> r == poem
    ensures poem != "" && '\n' !in poem ==> Avoids(r, Commas) && Avoids(r, Stops)
    ensures poem != "" && '\n' !in poem ==> r == ReplaceChars(DeleteChars(poem, Stops), Commas, '\n')
  {
    if poem != "" && '\n' !in poem then
      var lines := ReplaceChars(poem, Commas, '\n');
      ReplaceClears(poem, Commas, '\n');
      DeleteKeepsOut(lines, Stops, Commas);
      DeleteReplaceCommute(poem, Commas, '\n', Stops);
      DeleteChars(lines, Stops)
    else poem
  }

  /** On a one-line poem, every character other than a full stop survives in order, a comma as a
      line break, and nothing else is in the result. */
  lemma CleanMazuPoemLines(poem: string)
    requires poem != "" && '\n' !in poem
    ensures var r := CleanMazuPoem(poem);
      && |r| == |DeleteChars(poem, Stops)|
      && forall i :: 0 <= i < |poem| && poem[i] !in Stops ==>
           |DeleteChars(poem[..i], Stops)| < |r| &&
           r[|DeleteChars(poem[..i], Stops)|] == (if poem[i] in Commas then '\n' else poem[i])
  {
    DeleteCharsKeeps(poem, Stops);
  }

  /** Cleaning a poem twice is cleaning it once. */
  lemma CleanMazuPoemIdempotent(poem: string)
    ensures CleanMazuPoem(CleanMazuPoem(poem)) == CleanMazuPoem(poem)
  {
    var r := CleanMazuPoem(poem);
    if poem != "" && '\n' !in poem && r != "" && '\n' !in r {
      ReplaceAbsent(r, Commas, '\n');
      DeleteAbsent(r, Stops);
    }
  }

  const Marker: string := "解曰"

  /** `explain.replace(/解曰[：:]?/, '')`: the first 解曰 removed, with one colon right after it. */
  function RemoveMarker(e: string): (r: string)
    ensures IndexOf(e, Marker, 0).None? ==> r == e
    ensures IndexOf(e, Marker, 0).Some? ==>
      var i := IndexOf(e, Marker, 0).value;
      var n := |e| - |r|;
      && (n == |Marker| || n == |Marker| + 1)
      && (n == |Marker| + 1 <==> i + |Marker| < |e| && (e[i + |Marker|] == '：' || e[i + |Marker|] == ':'))
      && i + n <= |e| && r == e[..i] + e[i + n..]
  {
    match IndexOf(e, Marker, 0)
    case None => e
    case Some(i) =>
      var k := i + |Marker|;
      var stop := if k < |e| && (e[k] == '：' || e[k] == ':') then k + 1 else k;
      e[..i] + e[stop..]
  }

  /** Line 87: `if (explain)` the marker goes and the rest is trimmed. */
  function CleanMazuExplain(explain: string): (r: string)
    ensures IndexOf(explain, Marker, 0).None? ==> r == Trim(explain)
    ensures explain != "" ==> Trimmed(r)
  {
    if explain == "" then ""
    else
      Trim(RemoveMarker(explain))
  }

  /** A leading 解曰 is stripped off the explanation. */
  lemma LeadingMarkerStripped(rest: string)
    requires rest == [] || (rest[0] != '：' && rest[0] != ':')
    ensures CleanMazuExplain(Marker + rest) == Trim(rest)
  {
    var e := Marker + rest;
    assert e[0..2] == Marker;
    assert IndexOf(e, Marker, 0) == Some(0);
    assert e[2..] == rest;
    assert RemoveMarker(e) == rest;
  }

  /** A leading 解曰 followed by a colon, full-width or not, is stripped together with the colon. */
  lemma LeadingMarkerColonStripped(colon: char, rest: string)
    requires colon == '：' || colon == ':'
    ensures CleanMazuExplain(Marker + [colon] + rest) == Trim(rest)
  {
    var e := Marker + [colon] + rest;
    assert e[0..2] == Marker;
    assert IndexOf(e, Marker, 0) == Some(0);
    assert e[2] == colon;
    assert e[3..] == rest;
    assert RemoveMarker(e) == rest;
  }

  /** One entry as pushed by line 95. */
  function MazuEntry(link: MazuLink, page: MazuPage): Fortune {
    var heading := Trim(page.heading);
    var title := if heading != "" then heading else link.title;
    var explain := match page.explainText
      case Some(t) => Trim(t)
      case None => Trim(page.firstText);
    Fortune(if title != "" then title else link.title, "", CleanMazuPoem(RawPoem(page)), CleanMazuExplain(explain))
  }

  /** An entry takes the page's heading as title, falling back on the link's title, has no level,
      and carries the cleaned poem and explanation. */
  lemma MazuEntryFields(link: MazuLink, page: MazuPage)
    ensures var f := MazuEntry(link, page);
      && f.level == ""
      && f.title == (if Trim(page.heading) != "" then Trim(page.heading) else link.title)
      && (link.title != "" ==> f.title != "")
      && f.poem == CleanMazuPoem(RawPoem(page))
      && Trimmed(f.explain)
  {
  }

  /** The accumulation of the detail loop, for any way of building an entry: a link whose page
      could not be read (None) is skipped, every other link adds `entry(link, page)`. */
  function Skipping<L, P>(links: seq<L>, fetch: L -> Option<P>, entry: (L, P) -> Fortune): (data: seq<Fortune>)
    ensures |data| <= |links|
  {
    if links == [] then []
    else
      var init := Skipping(links[..|links| - 1], fetch, entry);
      var link := links[|links| - 1];
      match fetch(link)
      case None => init
      case Some(page) => init + [entry(link, page)]
  }

  /** When every page is read, nothing is skipped: one entry per link, in link order. */
  lemma {:induction false} SkippingAllFetched<L, P>(links: seq<L>, fetch: L -> Option<P>, entry: (L, P) -> Fortune)
    requires forall i :: 0 <= i < |links| ==> fetch(links[i]).Some?
    ensures var data := Skipping(links, fetch, entry);
      && |data| == |links|
      && forall i :: 0 <= i < |links| ==> data[i] == entry(links[i], fetch(links[i]).value)
  {
    if links != [] {
      var init := links[..|links| - 1];
      var last := links[|links| - 1];
      SkippingAllFetched(init, fetch, entry);
      var rest := Skipping(init, fetch, entry);
      assert fetch(last).Some?;
      var data := Skipping(links, fetch, entry);
      assert data == rest + [entry(last, fetch(last).value)];
      forall i | 0 <= i < |links| ensures data[i] == entry(links[i], fetch(links[i]).value) {
        if i < |init| {
          assert data[i] == rest[i] && links[i] == init[i];
        }
      }
    }
  }

  /** The entries of the detail loop of lines 48-107. */
  function MazuEntries(links: seq<MazuLink>, fetch: MazuLink -> Option<MazuPage>): (data: seq<Fortune>)
    ensures |data| <= |links|
  {
    Skipping(links, fetch, MazuEntry)
  }

  /** When every page is read, there is one entry per link, in link order. */
  lemma MazuEntriesAllFetched(links: seq<MazuLink>, fetch: MazuLink -> Option<MazuPage>)
    requires forall i :: 0 <= i < |links| ==> fetch(links[i]).Some?
    ensures var data := MazuEntries(links, fetch);
      && |data| == |links|
      && forall i :: 0 <= i < |links| ==> data[i] == MazuEntry(links[i], fetch(links[i]).value)
  {
    SkippingAllFetched(links, fetch, MazuEntry);
  }

  method ScrapeDetails(links: seq<MazuLink>, fetch: MazuLink -> Option<MazuPage>) returns (data: seq<Fortune>)
    ensures data == MazuEntries(links, fetch)
  {
    data := [];
    for i := 0 to |links|
      invariant data == MazuEntries(links[..i], fetch)
    {
      assert links[..i + 1][..i] == links[..i];
      var link := links[i];
      var page := fetch(link);
      if page.Some? {
        data := data + [MazuEntry(link, page.value)];
      }
    }
    assert links[..|links|] == links;
  }

  /** The bracket depth after scanning `text[start..j]`, starting from the already opened `[`. */
  function Depth(text: string, start: nat, j: nat): int
    requires start <= j <= |text|
    decreases j - start
  {
    if j == start then 1
    else Depth(text, start, j - 1) + (if text[j - 1] == '[' then 1 else if text[j - 1] == ']' then -1 else 0)
  }

  /** Where the scan stops: the first position from `j` on where the depth has dropped to zero,
      or the end of the text. */
  function ClosingEnd(text: string, start: nat, j: nat): (e: nat)
    requires start <= j <= |text|
    requires forall k :: start <= k < j ==> Depth(text, start, k) > 0
    decreases |text| - j
    ensures j <= e <= |text|
    ensures forall k :: start <= k < e ==> Depth(text, start, k) > 0
    ensures e == |text| || Depth(text, start, e) <= 0
  {
    if Depth(text, start, j) <= 0 || j == |text| then j else ClosingEnd(text, start, j + 1)
  }

  /** The `while` loop of lines 135-141. */
  method FindDataEnd(text: string, dataStart: nat) returns (dataEnd: nat)
    requires dataStart + 7 <= |text|
    ensures dataEnd == ClosingEnd(text, dataStart + 7, dataStart + 7)
    ensures dataStart + 7 <= dataEnd <= |text|
  {
    var start := dataStart + 7;
    var bracketCount := 1;
    dataEnd := start;
    while bracketCount > 0 && dataEnd < |text|
      invariant start <= dataEnd <= |text|
      invariant bracketCount == Depth(text, start, dataEnd)
      invariant forall k :: start <= k < dataEnd ==> Depth(text, start, k) > 0
      invariant ClosingEnd(text, start, dataEnd) == ClosingEnd(text, start, start)
      decreases |text| - dataEnd
    {
      if text[dataEnd] == '[' {
        bracketCount := bracketCount + 1;
      } else if text[dataEnd] == ']' {
        bracketCount := bracketCount - 1;
      }
      dataEnd := dataEnd + 1;
    }
  }

  /** `[` minus `]` over a string. */
  function Balance(s: string): int {
    if s == [] then 0
    else Balance(s[..|s| - 1]) + (if s[|s| - 1] == '[' then 1 else if s[|s| - 1] == ']' then -1 else 0)
  }

  /** An array body whose brackets never close more than they open and are balanced in the end. */
  predicate Nested(inner: string) {
    && (forall k :: 0 <= k <= |inner| ==> Balance(inner[..k]) >= 0)
    && Balance(inner) == 0
  }

  lemma {:induction false} DepthOfPrefix(text: string, start: nat, inner: string, k: nat)
    requires start + |inner| <= |text| && text[start..start + |inner|] == inner
    requires k <= |inner|
    ensures Depth(text, start, start + k) == 1 + Balance(inner[..k])
  {
    if k > 0 {
      DepthOfPrefix(text, start, inner, k - 1);
      assert inner[..k][..k - 1] == inner[..k - 1];
      assert text[start + k - 1] == inner[k - 1];
    }
  }

  const DataOpen: string := "data: ["
  const MazuOpen: string := "mazu: {"

  /** Lines 143-145: the text before `data: [`, then `data: ` and the new array, then the text
      after where the scan stopped. */
  function Splice(text: string, dataStart: nat, json: string): string
    requires dataStart + 7 <= |text|
  {
    var dataEnd := ClosingEnd(text, dataStart + 7, dataStart + 7);
    text[..dataStart] + "data: " + json + text[dataEnd..]
  }

  /** On a well-nested array the splice replaces exactly `data: [ ... ]` and keeps everything around
      it. */
  lemma SpliceReplacesArray(pre: string, inner: string, post: string, json: string)
    requires Nested(inner)
    ensures var text := pre + DataOpen + inner + "]" + post;
      Splice(text, |pre|, json) == pre + "data: " + json + post
  {
    var text := pre + DataOpen + inner + "]" + post;
    var start := |pre| + 7;
    assert text[start..start + |inner|] == inner;
    forall k | start <= k <= start + |inner| ensures Depth(text, start, k) > 0 {
      DepthOfPrefix(text, start, inner, k - start);
    }
    DepthOfPrefix(text, start, inner, |inner|);
    assert inner[..|inner|] == inner;
    assert text[start + |inner|] == ']';
    assert Depth(text, start, start + |inner| + 1) == 0;
    var e := ClosingEnd(text, start, start);
    assert e == start + |inner| + 1;
    assert text[..|pre|] == pre;
    assert text[e..] == post;
  }

  datatype RewriteError = NoMazuSection | NoDataSection

  /** Lines 126-145 as a value: the error thrown when either marker is missing, else the new file
      text. */
  function RewriteSpec(text: string, json: string): (r: Result<string, RewriteError>)
    ensures r == Err(NoMazuSection) <==> IndexOf(text, MazuOpen, 0).None?
    ensures r == Err(NoDataSection) <==>
      IndexOf(text, MazuOpen, 0).Some? && IndexOf(text, DataOpen, IndexOf(text, MazuOpen, 0).value).None?
    ensures r.Ok? ==> var m := IndexOf(text, MazuOpen, 0).value;
      var d := IndexOf(text, DataOpen, m).value;
      m <= d && OccursAt(text, DataOpen, d) && r.value == Splice(text, d, json)
  {
    match IndexOf(text, MazuOpen, 0)
    case None => Err(NoMazuSection)
    case Some(m) =>
      match IndexOf(text, DataOpen, m)
      case None => Err(NoDataSection)
      case Some(d) => Ok(Splice(text, d, json))
  }

  method RewriteDatabase(text: string, json: string) returns (r: Result<string, RewriteError>)
    ensures r == RewriteSpec(text, json)
  {
    var mazuStart := IndexOf(text, MazuOpen, 0);
    if mazuStart.None? {
      return Err(NoMazuSection);
    }
    var dataStart := IndexOf(text, DataOpen, mazuStart.value);
    if dataStart.None? {
      return Err(NoDataSection);
    }
    var d := dataStart.value;
    var dataEnd := FindDataEnd(text, d);
    r := Ok(text[..d] + "data: " + json + text[dataEnd..]);
  }

  /** How a run ends: no links (nothing written), a missing marker (the error is logged, nothing
      written), or the new file text together with the entries it holds. */
  datatype MazuRun = NoLinks | Failed(error: RewriteError) | Written(content: string, data: seq<Fortune>)

  /** The whole script, with the network, the file and `JSON.stringify` as inputs. */
  method ScrapeMazu(anchors: seq<Anchor>, fetch: MazuLink -> Option<MazuPage>, fileContent: string,
                    stringify: seq<Fortune> -> string) returns (run: MazuRun)
    ensures var links := UniqueByUrl(KeptMazuLinks(anchors));
      && (run == MazuRun.NoLinks <==> links == [])
      && (run.Failed? ==> RewriteSpec(fileContent, stringify(MazuEntries(links, fetch))) == Err(run.error))
      && (run.Written? ==>
            run.data == MazuEntries(links, fetch) && RewriteSpec(fileContent, stringify(run.data)) == Ok(run.content))
  {
    var links := CollectMazuLinks(anchors);
    var uniqueLinks := UniqueByUrl(links);
    if |uniqueLinks| == 0 {
      return MazuRun.NoLinks;
    }
    var data := ScrapeDetails(uniqueLinks, fetch);
    var rewritten := RewriteDatabase(fileContent, stringify(data));
    match rewritten
    case Err(e) => run := Failed(e);
    case Ok(content) => run := Written(content, data);
  }
}
