/** The list and string logic that scripts/scrapeGuanyin.js and scripts/scrapeGuandi.js share
    (the two scripts repeat it line for line, with a different tag and keyword list), plus the
    explanation clean-up both use. The page fetches and the CSS selection of anchors are outside
    the model: anchors and page texts are inputs. */
module ScrapeCommon {
  import opened Wrappers
  import opened Text
  import opened Fortunes

  /** An `<a>` element as the list page yields it: its `href` attribute (None when absent) and its
      raw text. */
  datatype Anchor = Anchor(href: Option<string>, text: string)

  /** JavaScript truthiness of the `href` attribute: absent and empty both fail. */
  predicate HrefSet(href: Option<string>) {
    href.Some? && href.value != ""
  }

  /** Where `/TAG\d+/` can match: the tag followed by at least one digit. */
  predicate TaggedAt(s: string, tag: string, i: nat) {
    OccursAt(s, tag, i) && i + |tag| < |s| && IsDigit(s[i + |tag|])
  }

  /** The leftmost match of `/TAG\d+/` at or after `from`. */
  function FindTagged(s: string, tag: string, from: nat): (r: Option<nat>)
    decreases |s| - from
    ensures r.Some? ==> from <= r.value && TaggedAt(s, tag, r.value)
    ensures r.Some? ==> forall j :: from <= j < r.value ==> !TaggedAt(s, tag, j)
    ensures r.None? ==> forall j :: from <= j ==> !TaggedAt(s, tag, j)
  {
    if from + |tag| >= |s| then None
    else if TaggedAt(s, tag, from) then Some(from)
    else FindTagged(s, tag, from + 1)
  }

  /** `s.replace(/TAG\d+/, '')`: the first match, tag and the whole digit run after it, removed. */
  function RemoveTagged(s: string, tag: string): string {
    match FindTagged(s, tag, 0)
    case None => s
    case Some(i) => s[..i] + s[i + |tag| + DigitRun(s, i + |tag|)..]
  }

  /** No match of `/TAG\d+/` starts inside the text before the trailing tag. */
  predicate NoTagBefore(p: string, tag: string, d: string) {
    forall j :: 0 <= j < |p| ==> !TaggedAt(p + tag + d, tag, j)
  }

  /** A text without the tag's first character has no match of the tag inside it. */
  lemma NoTagBeforeFromFirstChar(p: string, tag: string, d: string)
    requires tag != [] && tag[0] !in p
    ensures NoTagBefore(p, tag, d)
  {
    var s := p + tag + d;
    forall j | 0 <= j < |p| ensures !TaggedAt(s, tag, j) {
      assert s[j] == p[j] && p[j] != tag[0];
    }
  }

  /** Link texts end in the tag and the stick number; removing the tag leaves the text before it,
      provided no match of the tag starts earlier. */
  lemma RemoveTrailingTag(p: string, tag: string, d: string)
    requires NoTagBefore(p, tag, d)
    requires d != [] && AllDigits(d)
    ensures RemoveTagged(p + tag + d, tag) == p
  {
    var s := p + tag + d;
    assert s[|p|..|p| + |tag|] == tag;
    assert TaggedAt(s, tag, |p|);
    assert FindTagged(s, tag, 0) == Some(|p|);
    var k := DigitRun(s, |p| + |tag|);
    assert forall i :: 0 <= i < |d| ==> s[|p| + |tag| + i] == d[i];
    assert k == |d|;
    assert s[..|p|] == p;
  }

  /** A link to one fortune's page, as both scripts record it. */
  datatype IndexedLink = IndexedLink(url: string, title: string, originalText: string, index: nat)

  /** The standard title `第${index}籤`. */
  function BaseTitle(index: nat): string {
    "第" + FormatDecimal(index) + "籤"
  }

  /** Different indices give different titles. */
  lemma BaseTitleInjective(m: nat, n: nat)
    requires BaseTitle(m) == BaseTitle(n)
    ensures m == n
  {
    var a, b := FormatDecimal(m), FormatDecimal(n);
    assert |a| == |b|;
    assert a == BaseTitle(m)[1..1 + |a|] && b == BaseTitle(n)[1..1 + |b|];
    FormatInjective(m, n);
  }

  /** The index read off a link text: `text.match(/(\d+)$/)` parsed in base 10, 0 without a match. */
  function LinkIndex(text: string): nat {
    var d := TrailingDigits(text);
    if d == [] then 0 else ParseDecimal(d)
  }

  /** A link text that ends in a printed number, after something that is not a digit, gives back
      that number. */
  lemma LinkIndexOfNumbered(p: string, n: nat)
    requires p == [] || !IsDigit(p[|p| - 1])
    ensures LinkIndex(p + FormatDecimal(n)) == n
  {
    var d := FormatDecimal(n);
    var s := p + d;
    assert TrailingDigits(s) == s[|p|..] == d;
    ParseFormat(n);
  }

  /** The anchor filter: an href, a tagged number somewhere in the trimmed text, and a trailing
      number from 1 to 100; the kept link has the standard title. */
  function KeepLink(a: Anchor, tag: string): (r: Option<IndexedLink>)
    ensures r.Some? <==>
      HrefSet(a.href) && FindTagged(Trim(a.text), tag, 0).Some? && 0 < LinkIndex(Trim(a.text)) <= 100
    ensures r.Some? ==> var l := r.value;
      && l.url == a.href.value && l.originalText == Trim(a.text)
      && l.index == LinkIndex(Trim(a.text)) && 1 <= l.index <= 100
      && l.title == BaseTitle(l.index)
  {
    var text := Trim(a.text);
    if HrefSet(a.href) && FindTagged(text, tag, 0).Some? then
      var index := LinkIndex(text);
      if 0 < index <= 100 then Some(IndexedLink(a.href.value, BaseTitle(index), text, index)) else None
    else None
  }

  /** Every link has an index from 1 to 100 and the standard title for it. */
  predicate WellTitled(ls: seq<IndexedLink>) {
    forall i :: 0 <= i < |ls| ==> 1 <= ls[i].index <= 100 && ls[i].title == BaseTitle(ls[i].index)
  }

  /** Appending a well-titled link keeps a list well titled. */
  lemma WellTitledSnoc(ls: seq<IndexedLink>, l: IndexedLink)
    requires WellTitled(ls) && 1 <= l.index <= 100 && l.title == BaseTitle(l.index)
    ensures WellTitled(ls + [l])
  {
  }

  /** The links the `$('a').each` callback pushes, in page order. */
  function KeptLinks(anchors: seq<Anchor>, tag: string): (ls: seq<IndexedLink>)
    ensures |ls| <= |anchors|
    ensures WellTitled(ls)
  {
    if anchors == [] then []
    else
      var init := KeptLinks(anchors[..|anchors| - 1], tag);
      match KeepLink(anchors[|anchors| - 1], tag)
      case None => init
      case Some(l) =>
        WellTitledSnoc(init, l);
        init + [l]
  }

  method CollectLinks(anchors: seq<Anchor>, tag: string) returns (links: seq<IndexedLink>)
    ensures links == KeptLinks(anchors, tag)
  {
    links := [];
    for i := 0 to |anchors|
      invariant links == KeptLinks(anchors[..i], tag)
    {
      assert anchors[..i + 1][..i] == anchors[..i];
      var kept := KeepLink(anchors[i], tag);
      if kept.Some? {
        links := links + [kept.value];
      }
    }
    assert anchors[..|anchors|] == anchors;
  }

  function Indices(ls: seq<IndexedLink>): set<nat> {
    set i | 0 <= i < |ls| :: ls[i].index
  }

  lemma IndicesSnoc(ls: seq<IndexedLink>, l: IndexedLink)
    ensures Indices(ls + [l]) == Indices(ls) + {l.index}
  {
    var s := ls + [l];
    forall x | x in Indices(s) ensures x in Indices(ls) + {l.index} {
      var i :| 0 <= i < |s| && s[i].index == x;
      if i < |ls| { assert s[i] == ls[i]; }
    }
    forall x | x in Indices(ls) ensures x in Indices(s) {
      var i :| 0 <= i < |ls| && ls[i].index == x;
      assert s[i] == ls[i];
    }
    assert s[|ls|] == l;
  }

  predicate DistinctIndices(ls: seq<IndexedLink>) {
    forall i, j :: 0 <= i < j < |ls| ==> ls[i].index != ls[j].index
  }

  predicate SortedByIndex(ls: seq<IndexedLink>) {
    forall i, j :: 0 <= i < j < |ls| ==> ls[i].index <= ls[j].index
  }

  predicate StrictlyIncreasing(ls: seq<IndexedLink>) {
    forall i, j :: 0 <= i < j < |ls| ==> ls[i].index < ls[j].index
  }

  /** The position of the first link with index `x`. */
  function FirstPos(ls: seq<IndexedLink>, x: nat): (p: nat)
    requires x in Indices(ls)
    ensures p < |ls| && ls[p].index == x
    ensures forall j :: 0 <= j < p ==> ls[j].index != x
  {
    var init := ls[..|ls| - 1];
    IndicesSnoc(init, ls[|ls| - 1]);
    assert ls == init + [ls[|ls| - 1]];
    if x in Indices(init) then FirstPos(init, x)
    else
      assert forall j :: 0 <= j < |init| ==> init[j].index in Indices(init);
      |ls| - 1
  }

  /** The first link seen for each index, in the order first seen: what the loop over a `Set`
      of seen indices pushes into `uniqueLinks`. */
  function FirstPerIndex(ls: seq<IndexedLink>): seq<IndexedLink> {
    if ls == [] then []
    else
      var init := ls[..|ls| - 1];
      var last := ls[|ls| - 1];
      if last.index in Indices(init) then FirstPerIndex(init) else FirstPerIndex(init) + [last]
  }

  /** De-duplication keeps one link per index and loses no index. */
  lemma {:induction false} FirstPerIndexIndices(ls: seq<IndexedLink>)
    ensures DistinctIndices(FirstPerIndex(ls)) && Indices(FirstPerIndex(ls)) == Indices(ls)
  {
    if ls != [] {
      var init := ls[..|ls| - 1];
      var last := ls[|ls| - 1];
      assert ls == init + [last];
      IndicesSnoc(init, last);
      FirstPerIndexIndices(init);
      var v := FirstPerIndex(init);
      if last.index !in Indices(init) {
        var u := v + [last];
        IndicesSnoc(v, last);
        forall k1, k2 | 0 <= k1 < k2 < |u| ensures u[k1].index != u[k2].index {
          assert u[k1] == v[k1];
          if k2 == |v| {
            assert v[k1].index in Indices(v);
          } else {
            assert u[k2] == v[k2];
          }
        }
      }
    }
  }

  /** The first position of an index already present is not moved by appending a link. */
  lemma FirstPosSnoc(init: seq<IndexedLink>, last: IndexedLink, x: nat)
    requires x in Indices(init)
    ensures x in Indices(init + [last]) && FirstPos(init + [last], x) == FirstPos(init, x)
  {
    IndicesSnoc(init, last);
  }

  /** Each kept link is the first link that carried its index. */
  lemma {:induction false} FirstPerIndexFirstSeen(ls: seq<IndexedLink>)
    ensures var u := FirstPerIndex(ls);
      forall k :: 0 <= k < |u| ==> u[k].index in Indices(ls) && u[k] == ls[FirstPos(ls, u[k].index)]
  {
    if ls != [] {
      var init := ls[..|ls| - 1];
      var last := ls[|ls| - 1];
      assert ls == init + [last];
      IndicesSnoc(init, last);
      var v := FirstPerIndex(init);
      var u := FirstPerIndex(ls);
      FirstPerIndexFirstSeen(init);
      assert forall k :: 0 <= k < |FirstPerIndex(init)| ==>
        FirstPerIndex(init)[k].index in Indices(init) && FirstPerIndex(init)[k] == init[FirstPos(init, FirstPerIndex(init)[k].index)];
      assert u == if last.index in Indices(init) then v else v + [last];
      forall k | 0 <= k < |u| ensures u[k].index in Indices(ls) && u[k] == ls[FirstPos(ls, u[k].index)] {
        if k < |v| {
          assert u[k] == v[k];
          FirstPosSnoc(init, last, v[k].index);
        } else {
          assert u[k] == last && last.index !in Indices(init);
          assert FirstPos(ls, last.index) == |ls| - 1;
        }
      }
    }
  }

  /** The kept links come in the order their indices first appeared. */
  lemma {:induction false} FirstPerIndexOrder(ls: seq<IndexedLink>)
    ensures var u := FirstPerIndex(ls);
      forall k1, k2 :: 0 <= k1 < k2 < |u| ==>
        u[k1].index in Indices(ls) && u[k2].index in Indices(ls) && FirstPos(ls, u[k1].index) < FirstPos(ls, u[k2].index)
  {
    if ls != [] {
      var init := ls[..|ls| - 1];
      var last := ls[|ls| - 1];
      assert ls == init + [last];
      IndicesSnoc(init, last);
      FirstPerIndexOrder(init);
      FirstPerIndexIndices(init);
      var v := FirstPerIndex(init);
      var u := FirstPerIndex(ls);
      forall k1, k2 | 0 <= k1 < k2 < |u|
        ensures u[k1].index in Indices(ls) && u[k2].index in Indices(ls) && FirstPos(ls, u[k1].index) < FirstPos(ls, u[k2].index)
      {
        assert u[k1] == v[k1] && v[k1].index in Indices(v);
        FirstPosSnoc(init, last, v[k1].index);
        if k2 < |v| {
          assert u[k2] == v[k2] && v[k2].index in Indices(v);
          FirstPosSnoc(init, last, v[k2].index);
        } else {
          assert u[k2] == last && last.index !in Indices(init);
          assert FirstPos(ls, last.index) == |ls| - 1;
        }
      }
    }
  }

  /** De-duplication keeps one link per index, loses no index, keeps for each index the first
      link that carried it, and keeps them in the order of first appearance. */
  lemma FirstPerIndexSpec(ls: seq<IndexedLink>)
    ensures var u := FirstPerIndex(ls);
      && DistinctIndices(u)
      && Indices(u) == Indices(ls)
      && (forall k :: 0 <= k < |u| ==> u[k].index in Indices(ls) && u[k] == ls[FirstPos(ls, u[k].index)])
      && (forall k1, k2 :: 0 <= k1 < k2 < |u| ==> FirstPos(ls, u[k1].index) < FirstPos(ls, u[k2].index))
  {
    FirstPerIndexIndices(ls);
    FirstPerIndexFirstSeen(ls);
    FirstPerIndexOrder(ls);
  }

  method DedupByIndex(links: seq<IndexedLink>) returns (unique: seq<IndexedLink>)
    ensures unique == FirstPerIndex(links)
  {
    unique := [];
    var seenIndices: set<nat> := {};
    for i := 0 to |links|
      invariant unique == FirstPerIndex(links[..i])
      invariant seenIndices == Indices(links[..i])
    {
      var link := links[i];
      assert links[..i + 1] == links[..i] + [link];
      IndicesSnoc(links[..i], link);
      if link.index !in seenIndices {
        seenIndices := seenIndices + {link.index};
        unique := unique + [link];
      }
    }
    assert links[..|links|] == links;
  }

  /** The first `n` links are in order of index. */
  predicate SortedPrefix(s: seq<IndexedLink>, n: nat) {
    forall p, q :: 0 <= p < q < n && q < |s| ==> s[p].index <= s[q].index
  }

  /** Exchanging two neighbours only permutes a sequence. */
  lemma SwapKeepsMultiset(s: seq<IndexedLink>, j: nat)
    requires 0 < j < |s|
    ensures multiset(s[j - 1 := s[j]][j := s[j - 1]]) == multiset(s)
  {
    var t := s[j - 1 := s[j]][j := s[j - 1]];
    assert s == s[..j - 1] + [s[j - 1], s[j]] + s[j + 1..];
    assert t == s[..j - 1] + [s[j], s[j - 1]] + s[j + 1..];
  }

  /** The first `n + 1` links are in order, except that the link at `j` may be out of place
      towards the front. */
  predicate SortedExcept(s: seq<IndexedLink>, n: nat, j: nat) {
    forall p, q :: 0 <= p < q <= n && q < |s| && q != j ==> s[p].index <= s[q].index
  }

  /** Swapping the out-of-place link with a larger predecessor moves the gap one step down. */
  lemma SwapStep(s: seq<IndexedLink>, n: nat, j: nat)
    requires 0 < j <= n < |s| && SortedExcept(s, n, j) && s[j - 1].index > s[j].index
    ensures SortedExcept(s[j - 1 := s[j]][j := s[j - 1]], n, j - 1)
  {
    var t := s[j - 1 := s[j]][j := s[j - 1]];
    forall p, q | 0 <= p < q <= n && q != j - 1 ensures t[p].index <= t[q].index {
      if q == j {
        if p < j - 1 {
          assert s[p].index <= s[j - 1].index;
        }
      } else if p == j - 1 {
        assert s[j].index <= s[q].index;
      } else if p == j {
        assert s[j - 1].index <= s[q].index;
      }
    }
  }

  /** Once the out-of-place link is no smaller than its predecessor, the prefix is in order. */
  lemma SortedExceptDone(s: seq<IndexedLink>, n: nat, j: nat)
    requires j <= n < |s| && SortedExcept(s, n, j) && (j == 0 || s[j - 1].index <= s[j].index)
    ensures SortedPrefix(s, n + 1)
  {
    forall p, q | 0 <= p < q < n + 1 && q < |s| ensures s[p].index <= s[q].index {
      if q == j && p < j - 1 {
        assert s[p].index <= s[j - 1].index;
      }
    }
  }

  /** One pass of the insertion sort: the link at `i` is swapped down past every larger index, so
      the first `i + 1` links end up in order. */
  method InsertDown(a: array<IndexedLink>, i: nat)
    requires i < a.Length && SortedPrefix(a[..], i)
    modifies a
    ensures SortedPrefix(a[..], i + 1)
    ensures multiset(a[..]) == old(multiset(a[..]))
  {
    var j: nat := i;
    while j > 0 && a[j - 1].index > a[j].index
      invariant j <= i
      invariant SortedExcept(a[..], i, j)
      invariant multiset(a[..]) == old(multiset(a[..]))
    {
      SwapKeepsMultiset(a[..], j);
      SwapStep(a[..], i, j);
      a[j - 1], a[j] := a[j], a[j - 1];
      j := j - 1;
    }
    SortedExceptDone(a[..], i, j);
  }

  /** `uniqueLinks.sort((a, b) => a.index - b.index)`, in place: an insertion sort, which orders
      the array and only permutes it (the engine's own algorithm is not modelled; with distinct
      indices every correct sort gives the same result). */
  method SortByIndex(a: array<IndexedLink>)
    modifies a
    ensures SortedByIndex(a[..])
    ensures multiset(a[..]) == old(multiset(a[..]))
  {
    var i := 0;
    while i < a.Length
      invariant i <= a.Length
      invariant SortedPrefix(a[..], i)
      invariant multiset(a[..]) == old(multiset(a[..]))
    {
      InsertDown(a, i);
      i := i + 1;
    }
  }

  lemma DistinctCountsOnce(ls: seq<IndexedLink>, x: IndexedLink)
    requires DistinctIndices(ls)
    ensures multiset(ls)[x] <= 1
  {
    if ls != [] {
      var init := ls[..|ls| - 1];
      assert ls == init + [ls[|ls| - 1]];
      assert DistinctIndices(init);
      DistinctCountsOnce(init, x);
      if x == ls[|ls| - 1] {
        assert x !in init;
      }
    }
  }

  lemma RepeatCountsTwice(ls: seq<IndexedLink>, i: nat, j: nat)
    requires i < j < |ls| && ls[i] == ls[j]
    ensures multiset(ls)[ls[i]] >= 2
  {
    assert ls == ls[..j] + [ls[j]] + ls[j + 1..];
    assert ls[i] == ls[..j][i];
    assert ls[i] in multiset(ls[..j]);
  }

  /** A sorted permutation of links with distinct indices has strictly increasing indices. */
  lemma SortedPermutationIncreasing(s: seq<IndexedLink>, u: seq<IndexedLink>)
    requires DistinctIndices(u) && multiset(s) == multiset(u) && SortedByIndex(s)
    ensures StrictlyIncreasing(s)
  {
    forall i, j | 0 <= i < j < |s| ensures s[i].index < s[j].index {
      if s[i].index == s[j].index {
        assert s[i] in multiset(u) && s[j] in multiset(u);
        var p :| 0 <= p < |u| && u[p] == s[i];
        var q :| 0 <= q < |u| && u[q] == s[j];
        assert p == q;
        RepeatCountsTwice(s, i, j);
        DistinctCountsOnce(u, s[i]);
        assert false;
      }
    }
  }

  lemma {:induction false} FirstPerIndexWellTitled(ls: seq<IndexedLink>)
    requires WellTitled(ls)
    ensures WellTitled(FirstPerIndex(ls))
  {
    if ls != [] {
      var init := ls[..|ls| - 1];
      assert WellTitled(init);
      FirstPerIndexWellTitled(init);
    }
  }

  /** Two orderings of the same links carry the same indices and the same titles. */
  lemma PermutationKeepsLinks(s: seq<IndexedLink>, u: seq<IndexedLink>)
    requires multiset(s) == multiset(u)
    ensures Indices(s) == Indices(u)
    ensures WellTitled(u) ==> WellTitled(s)
  {
    forall x | x in Indices(s) ensures x in Indices(u) {
      var i :| 0 <= i < |s| && s[i].index == x;
      assert s[i] in multiset(u);
      var p :| 0 <= p < |u| && u[p] == s[i];
    }
    forall x | x in Indices(u) ensures x in Indices(s) {
      var p :| 0 <= p < |u| && u[p].index == x;
      assert u[p] in multiset(s);
      var i :| 0 <= i < |s| && s[i] == u[p];
    }
    if WellTitled(u) {
      forall i | 0 <= i < |s| ensures 1 <= s[i].index <= 100 && s[i].title == BaseTitle(s[i].index) {
        assert s[i] in multiset(u);
        var p :| 0 <= p < |u| && u[p] == s[i];
      }
    }
  }

  /** The de-duplicated, sorted link list both scripts iterate over: one link per index, no index
      lost, indices strictly increasing. */
  method UniqueSortedLinks(anchors: seq<Anchor>, tag: string) returns (links: seq<IndexedLink>)
    ensures StrictlyIncreasing(links)
    ensures multiset(links) == multiset(FirstPerIndex(KeptLinks(anchors, tag)))
    ensures Indices(links) == Indices(KeptLinks(anchors, tag))
    ensures WellTitled(links)
  {
    var kept := CollectLinks(anchors, tag);
    var unique := DedupByIndex(kept);
    FirstPerIndexSpec(kept);
    FirstPerIndexWellTitled(kept);
    var buffer := new IndexedLink[|unique|](i requires 0 <= i < |unique| => unique[i]);
    assert buffer[..] == unique;
    SortByIndex(buffer);
    links := buffer[..];
    SortedPermutationIncreasing(links, unique);
    PermutationKeepsLinks(links, unique);
  }

  /** The explanation of a placeholder entry, pushed when a detail page cannot be read. */
  const ScrapingFailed: string := "Scraping failed"

  /** The comma classes `[，,]` and the full-stop classes `[。.]` of the poem clean-ups. */
  const Commas: set<char> := {'，', ','}
  const Stops: set<char> := {'。', '.'}

  /** How a run ends: no links (nothing written), or the entries the file is to receive. */
  datatype ScrapeRun = NoLinks | Scraped(data: seq<Fortune>)

  /** The entries of a detail loop that pushes exactly one entry per link, whatever the page gave:
      `entry(link, fetch(link))` for each link, in link order. */
  function Mapped<L, P>(links: seq<L>, fetch: L -> P, entry: (L, P) -> Fortune): (data: seq<Fortune>)
    ensures |data| == |links|
  {
    if links == [] then []
    else Mapped(links[..|links| - 1], fetch, entry) + [entry(links[|links| - 1], fetch(links[|links| - 1]))]
  }

  /** The entry at position `i` is the one built from the link at position `i`. */
  lemma {:induction false} MappedPointwise<L, P>(links: seq<L>, fetch: L -> P, entry: (L, P) -> Fortune)
    ensures forall i :: 0 <= i < |links| ==> Mapped(links, fetch, entry)[i] == entry(links[i], fetch(links[i]))
  {
    if links != [] {
      var init := links[..|links| - 1];
      MappedPointwise(init, fetch, entry);
      forall i | 0 <= i < |init| ensures Mapped(links, fetch, entry)[i] == entry(links[i], fetch(links[i])) {
        assert links[i] == init[i];
      }
    }
  }

  /** The first of the listed keywords found at position `p`, by its place in the list. */
  function FirstListedAt(s: string, ks: seq<string>, p: nat, m: nat): (j: Option<nat>)
    requires m <= |ks|
    decreases |ks| - m
    ensures j.Some? ==> m <= j.value < |ks| && OccursAt(s, ks[j.value], p)
    ensures j.Some? ==> forall n :: m <= n < j.value ==> !OccursAt(s, ks[n], p)
    ensures j.None? ==> forall n :: m <= n < |ks| ==> !OccursAt(s, ks[n], p)
  {
    if m == |ks| then None
    else if OccursAt(s, ks[m], p) then Some(m)
    else FirstListedAt(s, ks, p, m + 1)
  }

  /** The leftmost match of the alternation `/(k0|k1|...)/`: the leftmost position where any
      keyword occurs, and there the first keyword in list order. */
  function FindKeyword(s: string, ks: seq<string>, from: nat): (r: Option<(nat, nat)>)
    decreases |s| + 1 - from
    ensures r.Some? ==> var (p, j) := r.value;
      && from <= p && j < |ks| && OccursAt(s, ks[j], p)
      && (forall n :: 0 <= n < j ==> !OccursAt(s, ks[n], p))
      && (forall q, n :: from <= q < p && 0 <= n < |ks| ==> !OccursAt(s, ks[n], q))
    ensures r.None? ==> forall q, n :: from <= q && 0 <= n < |ks| ==> !OccursAt(s, ks[n], q)
  {
    if from > |s| then None
    else match FirstListedAt(s, ks, from, 0)
      case Some(j) => Some((from, j))
      case None => FindKeyword(s, ks, from + 1)
  }

  /** `match ? match[1] : ''` for a keyword alternation over the page text; the keywords of
      both scripts are non-empty. */
  function KeywordLevel(body: string, ks: seq<string>): (level: string)
    requires "" !in ks
    ensures level == "" || level in ks
    ensures level == "" <==> forall q: nat, n :: 0 <= n < |ks| ==> !OccursAt(body, ks[n], q)
    ensures FindKeyword(body, ks, 0).Some? ==> level == ks[FindKeyword(body, ks, 0).value.1]
  {
    match FindKeyword(body, ks, 0)
    case None => ""
    case Some((p, j)) => ks[j]
  }

  /** The explanation clean-up both scripts apply: `if (explain)` the newlines become spaces and
      every white-space run becomes one space. */
  function CleanExplain(e: string): (r: string)
    ensures '\n' !in r
    ensures SingleSpaced(r)
    ensures Trimmed(e) ==> Trimmed(r)
    ensures r == "" <==> e == ""
  {
    if e == "" then e
    else
      var spaced := ReplaceChars(e, {'\n'}, ' ');
      var r := Collapse(spaced);
      CollapseLast(spaced);
      assert IsSpace('\n');
      r
  }

  /** Turning line breaks into spaces keeps white space white space and other characters other. */
  lemma SpacedKeepsSpace(e: string)
    ensures var r := ReplaceChars(e, {'\n'}, ' ');
      |r| == |e| && forall i :: 0 <= i < |e| ==> (IsSpace(r[i]) <==> IsSpace(e[i]))
  {
    assert IsSpace('\n');
  }

  /** The collapse step of the clean-up, across one white-space run. */
  lemma CollapseAcrossRun(ra: string, rw: string, rb: string)
    requires ra != "" && !IsSpace(ra[|ra| - 1])
    requires rw != "" && forall i :: 0 <= i < |rw| ==> IsSpace(rw[i])
    requires rb == "" || !IsSpace(rb[0])
    ensures Collapse(ra + rw + rb) == Collapse(ra) + " " + Collapse(rb)
  {
    AppendAssoc(ra, rw, rb);
    CollapseAppend(ra, rw + rb);
    CollapseRun(rw, rb);
    AppendAssoc(Collapse(ra), " ", Collapse(rb));
  }

  /** Each white-space run between two pieces of text, line breaks included, becomes exactly one
      plain space, and each piece is cleaned on its own. */
  lemma CleanExplainRun(a: string, w: string, b: string)
    requires a != "" && !IsSpace(a[|a| - 1])
    requires w != "" && forall i :: 0 <= i < |w| ==> IsSpace(w[i])
    requires b == "" || !IsSpace(b[0])
    ensures CleanExplain(a + w + b) == CleanExplain(a) + " " + CleanExplain(b)
  {
    var nl: set<char> := {'\n'};
    var ra := ReplaceChars(a, nl, ' ');
    var rw := ReplaceChars(w, nl, ' ');
    var rb := ReplaceChars(b, nl, ' ');
    ReplaceAppend(a + w, b, nl, ' ');
    ReplaceAppend(a, w, nl, ' ');
    SpacedKeepsSpace(a);
    SpacedKeepsSpace(w);
    SpacedKeepsSpace(b);
    CollapseAcrossRun(ra, rw, rb);
    assert CleanExplain(a + w + b) == Collapse(ra + rw + rb);
    assert CleanExplain(a) == Collapse(ra);
    if b != "" {
      assert CleanExplain(b) == Collapse(rb);
    }
  }

  /** A single character that is not white space is clean already. */
  lemma CleanExplainSingle(c: char)
    requires !IsSpace(c)
    ensures CleanExplain([c]) == [c]
  {
    assert c != '\n';
    assert ReplaceChars([c], {'\n'}, ' ') == [c];
    assert Collapse([c]) == [c] + Collapse([]);
  }

  /** The case that a dropped space would break: a line break between two words becomes the one
      space between them. */
  lemma CleanExplainKeepsWordBreak()
    ensures CleanExplain(['a', '\n', 'b']) == ['a', ' ', 'b']
  {
    assert IsSpace('\n');
    CleanExplainRun(['a'], ['\n'], ['b']);
    CleanExplainSingle('a');
    CleanExplainSingle('b');
    assert ['a'] + ['\n'] + ['b'] == ['a', '\n', 'b'];
  }

  lemma {:induction false} SqueezeReplaceNewlines(e: string)
    ensures Squeeze(ReplaceChars(e, {'\n'}, ' ')) == Squeeze(e)
  {
    if e != [] {
      assert ReplaceChars(e, {'\n'}, ' ')[1..] == ReplaceChars(e[1..], {'\n'}, ' ');
      SqueezeReplaceNewlines(e[1..]);
    }
  }

  /** The clean-up changes only white space: the other characters stay, in order. */
  lemma CleanExplainKeepsText(e: string)
    ensures Squeeze(CleanExplain(e)) == Squeeze(e)
  {
    if e != "" {
      SqueezeReplaceNewlines(e);
      CollapseKeepsText(ReplaceChars(e, {'\n'}, ' '));
    }
  }

  /** Cleaning twice is cleaning once. */
  lemma CleanExplainIdempotent(e: string)
    ensures CleanExplain(CleanExplain(e)) == CleanExplain(e)
  {
    var r := CleanExplain(e);
    if r != "" {
      assert ReplaceChars(r, {'\n'}, ' ') == r;
      CollapseSingleSpaced(r);
    }
  }

  lemma SingleSpacedTail(s: string)
    requires s != [] && SingleSpaced(s)
    ensures SingleSpaced(s[1..])
  {
    var t := s[1..];
    assert forall i :: 0 <= i < |t| ==> t[i] == s[i + 1];
    forall i | 0 <= i < |t|
      ensures !SpaceRun(t, i)
    {
      assert !SpaceRun(s, i + 1);
    }
  }

  /** On single-spaced text `/\s+/g` has nothing to do. */
  lemma {:induction false} CollapseSingleSpaced(s: string)
    requires SingleSpaced(s)
    ensures Collapse(s) == s
    decreases |s|
  {
    if s != [] {
      var tail := s[1..];
      SingleSpacedTail(s);
      CollapseSingleSpaced(tail);
      if IsSpace(s[0]) {
        assert s[0] == ' ';
        assert tail == [] || !IsSpace(tail[0]) by {
          if tail != [] {
            assert tail[0] == s[1];
            assert !SpaceRun(s, 0);
          }
        }
        assert TrimStart(s) == TrimStart(tail) == tail;
      }
      assert s == [s[0]] + tail;
    }
  }
}
