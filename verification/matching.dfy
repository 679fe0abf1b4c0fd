/**
  Keyword matching over one fetched page (`find_matches` in monitor.py).
  The HTML parse is abstracted: a page is the text BeautifulSoup extracts
  plus the page's elements in document order.
 */
module Matching {
  import opened Wrappers
  import opened Text

  /** The fixed, lower-case keyword list, in the source's order. */
  const KEYWORDS: seq<string> := [
    "usdc", "usdt", "stablecoin", "rlusd", "xsgd",
    "integration", "sidechain", "euro", "eur", "tokenize", "tokenization"
  ]

  /** The element names whose text may become a title entry. */
  const TITLE_TAGS: seq<string> := ["h1", "h2", "h3", "a"]

  /** One element of the parsed page: its name, its text and its `href`
      attribute when it has one. */
  datatype Tag = Tag(name: string, text: string, href: Option<string>)

  /** A parsed page: the whole-page text (`get_text(" ", strip=True)`,
      before lower-casing) and every element in document order. */
  datatype Page = Page(text: string, tags: seq<Tag>)

  /** A title entry: the stripped element text and, for links only, the target. */
  datatype Title = Title(title: string, link: Option<string>)

  /** What `find_matches` returns. */
  datatype PageMatches = PageMatches(matches: seq<string>, titles: seq<Title>)

  ghost predicate NoDuplicates<T>(s: seq<T>) {
    forall i, j :: 0 <= i < j < |s| ==> s[i] != s[j]
  }

  /** `xs` is obtained from `ys` by deleting elements. */
  ghost predicate IsSubsequence<T>(xs: seq<T>, ys: seq<T>)
    decreases |ys|
  {
    || xs == []
    || (&& ys != []
        && ((xs[0] == ys[0] && IsSubsequence(xs[1..], ys[1..])) || IsSubsequence(xs, ys[1..])))
  }

  /** The keywords of `ks` that occur in `low`, as the list comprehension
      `[k for k in ks if k in low]` computes them. */
  function KeywordsIn(ks: seq<string>, low: string): (ms: seq<string>)
    ensures forall k :: k in ms <==> k in ks && Contains(low, k)
    ensures IsSubsequence(ms, ks)
    ensures NoDuplicates(ks) ==> NoDuplicates(ms)
    ensures |ms| <= |ks|
  {
    if ks == [] then []
    else
      var rest := KeywordsIn(ks[1..], low);
      if Contains(low, ks[0]) then [ks[0]] + rest else rest
  }

  /** The inner `for k in KEYWORDS: if k in low: ... break` loop: whether any
      keyword occurs in `low`. */
  function AnyKeyword(ks: seq<string>, low: string): (b: bool)
    ensures b <==> exists k :: k in ks && Contains(low, k)
  {
    if ks == [] then false
    else if Contains(low, ks[0]) then assert ks[0] in ks; true
    else
      assert forall k :: k in ks <==> k == ks[0] || k in ks[1..];
      AnyKeyword(ks[1..], low)
  }

  /** The entry a tag would contribute: its stripped text, and its `href`
      only when the tag is an `<a>`; a heading never carries a link. */
  function TitleOf(tag: Tag): (t: Title)
    ensures t.link.Some? ==> tag.name == "a" && t.link == tag.href
    ensures tag.name == "a" ==> t.link == tag.href
  {
    Title(Strip(tag.text), if tag.name == "a" then tag.href else None)
  }

  /** A tag yields a title entry: it is an `<h1>`, `<h2>`, `<h3>` or `<a>`,
      its stripped text is non-empty and contains some keyword once
      lower-cased. */
  predicate Qualifies(ks: seq<string>, tag: Tag) {
    && tag.name in TITLE_TAGS
    && Strip(tag.text) != ""
    && AnyKeyword(ks, Lower(Strip(tag.text)))
  }


  /** The positions at or after `lo` of the tags that qualify, in increasing
      order: exactly the qualifying positions, each once. */
  function QualifyingIndices(ks: seq<string>, tags: seq<Tag>, lo: nat): (idx: seq<nat>)
    requires lo <= |tags|
    ensures forall j :: 0 <= j < |idx| ==> lo <= idx[j] < |tags|
    ensures forall j, k :: 0 <= j < k < |idx| ==> idx[j] < idx[k]
    ensures forall i :: lo <= i < |tags| ==> (i in idx <==> Qualifies(ks, tags[i]))
    decreases |tags| - lo
  {
    if lo == |tags| then []
    else
      var rest := QualifyingIndices(ks, tags, lo + 1);
      if Qualifies(ks, tags[lo]) then
        assert forall i :: i in [lo] + rest <==> i == lo || i in rest;
        [lo] + rest
      else rest
  }

  /** The title-collecting loop of `find_matches`. */
  function Titles(ks: seq<string>, tags: seq<Tag>): (ts: seq<Title>)
    ensures |ts| <= |tags|
  {
    if tags == [] then []
    else
      var rest := Titles(ks, tags[1..]);
      if Qualifies(ks, tags[0]) then [TitleOf(tags[0])] + rest else rest
  }

  /** The `find_all(["h1","h2","h3","a"])` filter, the `if not t: continue`
      skip and the keyword loop together: one element yields its entry
      exactly when it is one of the four element names, its stripped text is
      non-empty and some keyword occurs in that text once lower-cased, and
      otherwise nothing. */
  lemma OneTagTitles(ks: seq<string>, tag: Tag)
    ensures Titles(ks, [tag]) ==
            if && tag.name in {"h1", "h2", "h3", "a"}
               && Strip(tag.text) != ""
               && exists k :: k in ks && Contains(Lower(Strip(tag.text)), k)
            then [TitleOf(tag)] else []
  {
    assert [tag][1..] == [];
  }

  /** The loop over the tags from `lo` on: the entry of `tags[lo]`, if it
      qualifies, then the entries of the rest. */
  lemma TitlesStep(ks: seq<string>, tags: seq<Tag>, lo: nat)
    requires lo < |tags|
    ensures Titles(ks, tags[lo..])
            == (if Qualifies(ks, tags[lo]) then [TitleOf(tags[lo])] else []) + Titles(ks, tags[lo + 1..])
  {
    assert tags[lo..][1..] == tags[lo + 1..];
    assert tags[lo..][0] == tags[lo];
    assert [] + Titles(ks, tags[lo + 1..]) == Titles(ks, tags[lo + 1..]);
  }

  /** The qualifying positions from `lo` on: `lo` if it qualifies, then the
      positions after it. */
  lemma IndicesStep(ks: seq<string>, tags: seq<Tag>, lo: nat)
    requires lo < |tags|
    ensures QualifyingIndices(ks, tags, lo)
            == (if Qualifies(ks, tags[lo]) then [lo] else []) + QualifyingIndices(ks, tags, lo + 1)
  {
    assert [] + QualifyingIndices(ks, tags, lo + 1) == QualifyingIndices(ks, tags, lo + 1);
  }

  /** Putting one entry, and its position, in front of lists that agree
      position by position keeps them in agreement. */
  lemma PrependEntry(tags: seq<Tag>, lo: nat, q: bool, rest: seq<Title>, idx': seq<nat>)
    requires lo < |tags|
    requires |rest| == |idx'|
    requires forall j :: 0 <= j < |idx'| ==> idx'[j] < |tags| && rest[j] == TitleOf(tags[idx'[j]])
    ensures var ts := (if q then [TitleOf(tags[lo])] else []) + rest;
            var idx := (if q then [lo] else []) + idx';
            && |ts| == |idx|
            && forall j :: 0 <= j < |idx| ==> idx[j] < |tags| && ts[j] == TitleOf(tags[idx[j]])
  {
    var ts := (if q then [TitleOf(tags[lo])] else []) + rest;
    var idx := (if q then [lo] else []) + idx';
    var n := if q then 1 else 0;
    forall j | 0 <= j < |idx|
      ensures idx[j] < |tags| && ts[j] == TitleOf(tags[idx[j]])
    {
      if j >= n {
        assert ts[j] == rest[j - n] && idx[j] == idx'[j - n];
      }
    }
  }

  /** Title entries are, in document order, the entries of exactly the
      qualifying tags: the `j`-th entry of the tags from `lo` on is the entry
      of the `j`-th qualifying position, one entry per qualifying tag. */
  lemma {:induction false} TitlesInDocumentOrder(ks: seq<string>, tags: seq<Tag>, lo: nat)
    requires lo <= |tags|
    ensures var ts := Titles(ks, tags[lo..]);
            var idx := QualifyingIndices(ks, tags, lo);
            && |ts| == |idx|
            && forall j :: 0 <= j < |idx| ==> ts[j] == TitleOf(tags[idx[j]])
    decreases |tags| - lo
  {
    if lo < |tags| {
      TitlesInDocumentOrder(ks, tags, lo + 1);
      TitlesStep(ks, tags, lo);
      IndicesStep(ks, tags, lo);
      PrependEntry(tags, lo, Qualifies(ks, tags[lo]), Titles(ks, tags[lo + 1..]), QualifyingIndices(ks, tags, lo + 1));
    }
  }

  /** Every title entry comes from a qualifying tag of the page. */
  lemma {:induction false} TitlesSound(ks: seq<string>, tags: seq<Tag>, t: Title)
    requires t in Titles(ks, tags)
    ensures exists i :: 0 <= i < |tags| && Qualifies(ks, tags[i]) && TitleOf(tags[i]) == t
  {
    var rest := Titles(ks, tags[1..]);
    if Qualifies(ks, tags[0]) && t == TitleOf(tags[0]) {
      var w := 0;
      assert 0 <= w < |tags| && Qualifies(ks, tags[w]) && TitleOf(tags[w]) == t;
    } else {
      assert t in rest;
      TitlesSound(ks, tags[1..], t);
      var i :| 0 <= i < |tags[1..]| && Qualifies(ks, tags[1..][i]) && TitleOf(tags[1..][i]) == t;
      var w := i + 1;
      assert tags[1..][i] == tags[w];
      assert 0 <= w < |tags| && Qualifies(ks, tags[w]) && TitleOf(tags[w]) == t;
    }
  }

  /** Every qualifying tag of the page contributes its entry. */
  lemma {:induction false} TitlesComplete(ks: seq<string>, tags: seq<Tag>, i: int)
    requires 0 <= i < |tags| && Qualifies(ks, tags[i])
    ensures TitleOf(tags[i]) in Titles(ks, tags)
  {
    if i > 0 {
      assert tags[1..][i - 1] == tags[i];
      TitlesComplete(ks, tags[1..], i - 1);
    }
  }

  /** `find_matches`: the matched keywords and the title entries of a page. */
  function FindMatches(page: Page): (r: PageMatches)
    ensures forall k :: k in r.matches <==> k in KEYWORDS && Contains(Lower(page.text), k)
    ensures IsSubsequence(r.matches, KEYWORDS) && NoDuplicates(r.matches)
    ensures |r.titles| <= |page.tags|
    ensures var idx := QualifyingIndices(KEYWORDS, page.tags, 0);
            && |r.titles| == |idx|
            && forall j :: 0 <= j < |idx| ==> r.titles[j] == TitleOf(page.tags[idx[j]])
    ensures forall i :: 0 <= i < |page.tags| && Qualifies(KEYWORDS, page.tags[i]) ==> TitleOf(page.tags[i]) in r.titles
    ensures forall t :: t in r.titles ==> exists i :: 0 <= i < |page.tags| && Qualifies(KEYWORDS, page.tags[i]) && TitleOf(page.tags[i]) == t
  {
    KeywordsDistinct();
    var ts := Titles(KEYWORDS, page.tags);
    TitlesInDocumentOrder(KEYWORDS, page.tags, 0);
    assert page.tags[0..] == page.tags;
    forall t | t in ts
      ensures exists i :: 0 <= i < |page.tags| && Qualifies(KEYWORDS, page.tags[i]) && TitleOf(page.tags[i]) == t
    {
      TitlesSound(KEYWORDS, page.tags, t);
    }
    forall i | 0 <= i < |page.tags| && Qualifies(KEYWORDS, page.tags[i])
      ensures TitleOf(page.tags[i]) in ts
    {
      TitlesComplete(KEYWORDS, page.tags, i);
    }
    PageMatches(KeywordsIn(KEYWORDS, Lower(page.text)), ts)
  }

  /** A string of lower-case letters is its own lower case. */
  lemma LowerOfLowerLetters(s: string)
    requires forall i :: 0 <= i < |s| ==> 'a' <= s[i] <= 'z'
    ensures Lower(s) == s
  {
    assert forall i :: 0 <= i < |s| ==> Lower(s)[i] == s[i];
  }

  /** Every keyword is made of lower-case letters only. */
  lemma KeywordsLowerCase()
    ensures forall k :: k in KEYWORDS ==> Lower(k) == k
  {
    forall k | k in KEYWORDS
      ensures Lower(k) == k
    {
      LowerOfLowerLetters(k);
    }
  }

  /** The keyword list holds no keyword twice and every keyword is lower case. */
  lemma KeywordsDistinct()
    ensures NoDuplicates(KEYWORDS)
    ensures forall k :: k in KEYWORDS ==> Lower(k) == k
  {
    KeywordsLowerCase();
  }

  /** Every title entry is non-empty, already stripped, and its lower-cased
      text contains a keyword. It comes from one qualifying element: its
      title is that element's stripped text and its link is that element's
      `href` when the element is an `<a>`, and none for a heading. */
  lemma TitleEntries(page: Page, t: Title)
    requires t in FindMatches(page).titles
    ensures t.title != "" && Strip(t.title) == t.title
    ensures exists k :: k in KEYWORDS && Contains(Lower(t.title), k)
    ensures exists i :: && 0 <= i < |page.tags| && Qualifies(KEYWORDS, page.tags[i])
                        && t.title == Strip(page.tags[i].text)
                        && t.link == (if page.tags[i].name == "a" then page.tags[i].href else None)
  {
    var i :| 0 <= i < |page.tags| && Qualifies(KEYWORDS, page.tags[i]) && TitleOf(page.tags[i]) == t;
  }

  /** Matching is case-insensitive: any casing of a keyword in the page text
      makes that keyword match. */
  lemma CaseInsensitiveMatch(page: Page, w: string, k: string)
    requires k in KEYWORDS && Lower(w) == k && Contains(page.text, w)
    ensures k in FindMatches(page).matches
  {
    LowerContains(page.text, w);
  }

  /** "USDC" in the page text matches the keyword "usdc". */
  lemma UpperCaseUsdcMatches(page: Page)
    requires Contains(page.text, "USDC")
    ensures "usdc" in FindMatches(page).matches
  {
    assert Lower("USDC") == "usdc";
    CaseInsensitiveMatch(page, "USDC", "usdc");
  }

  /** Matching is by substring, not by word: whenever "euro" matches, so does
      "eur". */
  lemma EurInsideEuro(page: Page)
    requires "euro" in FindMatches(page).matches
    ensures "eur" in FindMatches(page).matches
  {
    var low := Lower(page.text);
    assert Contains(low, "euro");
    assert Contains("euro", "eur");
    ContainsTransitive(low, "euro", "eur");
    assert KEYWORDS[8] == "eur";
  }

  /** A page that only mentions "Europe" matches "euro" and "eur". */
  lemma EuropeMatchesEur()
    ensures "eur" in FindMatches(Page("Europe", [])).matches
    ensures "euro" in FindMatches(Page("Europe", [])).matches
  {
    var low := Lower("Europe");
    assert low == "europe";
    assert KEYWORDS[7] == "euro" && KEYWORDS[8] == "eur";
    assert Contains(low, "euro") && Contains(low, "eur");
  }
}
