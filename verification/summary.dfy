/**
  The alert a changed page produces, and the Telegram text it is rendered
  to (the `summary` built in `main` of monitor.py).
 */
module Summary {
  import opened Wrappers
  import opened Text
  import opened Matching

  /** At most this many title entries are listed in one alert. */
  const MAX_EXCERPTS: nat := 3

  /** Everything an alert message is built from. `time` is the UTC
      timestamp string the caller supplies. */
  datatype Alert = Alert(name: string, url: string, keywords: seq<string>, time: string, excerpts: seq<Title>)

  /** `titles[:3]`: the longest prefix of at most `MAX_EXCERPTS` entries. */
  function Excerpts(titles: seq<Title>): (es: seq<Title>)
    ensures |es| == if |titles| < MAX_EXCERPTS then |titles| else MAX_EXCERPTS
    ensures es == titles[..|es|]
  {
    if |titles| <= MAX_EXCERPTS then titles else titles[..MAX_EXCERPTS]
  }

  /** The alert for page `name` at `url` with the given matches. */
  function MakeAlert(name: string, url: string, pm: PageMatches, now: string): (a: Alert)
    ensures a.name == name && a.url == url && a.keywords == pm.matches && a.time == now
    ensures |a.excerpts| == if |pm.titles| < MAX_EXCERPTS then |pm.titles| else MAX_EXCERPTS
    ensures a.excerpts == pm.titles[..|a.excerpts|]
  {
    Alert(name, url, pm.matches, now, Excerpts(pm.titles))
  }

  /** `t.get('link')` is truthy: a link is present and not empty. */
  predicate HasLink(t: Title) {
    t.link.Some? && t.link.value != ""
  }

  /** The ` — <link>` suffix of a bullet, empty unless the entry has a link. */
  function LinkPart(t: Title): (r: string)
    ensures r != "" <==> HasLink(t)
  {
    if HasLink(t) then " \U{2014} " + t.link.value else ""
  }

  /** One bullet line of the message. */
  function BulletLine(t: Title): string {
    "\n\U{2022} " + t.title + LinkPart(t)
  }

  /** A bullet line starts a new line with a bullet, shows the entry's
      title, shows its link when it has one, and is nothing more than the
      bullet and the title when it has none. */
  lemma BulletLineShows(t: Title)
    ensures BulletLine(t)[..3] == "\n\U{2022} "
    ensures Contains(BulletLine(t), t.title)
    ensures HasLink(t) ==> Contains(BulletLine(t), t.link.value)
    ensures !HasLink(t) ==> |BulletLine(t)| == 3 + |t.title|
  {
    var r := BulletLine(t);
    ContainsInfix("\n\U{2022} ", t.title, LinkPart(t));
    if HasLink(t) {
      ContainsInfix("\n\U{2022} " + t.title + " \U{2014} ", t.link.value, "");
      assert "\n\U{2022} " + t.title + " \U{2014} " + t.link.value + "" == r;
    }
  }

  /** The bullet lines of `ts`, in order. */
  function Bullets(ts: seq<Title>): string {
    if ts == [] then "" else BulletLine(ts[0]) + Bullets(ts[1..])
  }

  /** `sep.join(items)`: every item appears in the joined text, which starts
      with the first item. */
  function Join(items: seq<string>, sep: string): (r: string)
    ensures forall i :: 0 <= i < |items| ==> Contains(r, items[i])
    ensures items != [] ==> |items[0]| <= |r| && r[..|items[0]|] == items[0]
  {
    if items == [] then ""
    else if |items| == 1 then
      ContainsInfix("", items[0], "");
      assert "" + items[0] + "" == items[0];
      items[0]
    else
      var rest := Join(items[1..], sep);
      var r := items[0] + sep + rest;
      ContainsInfix("", items[0], sep + rest);
      assert "" + items[0] + (sep + rest) == r;
      ContainsAllWithin(items[0] + sep, rest, "", items[1..]);
      assert items[0] + sep + rest + "" == r;
      r
  }

  /** The first four lines of the message: page name in bold, URL, matched
      keywords and the time. Each of them, and every matched keyword, appears
      in the header. */
  function Header(a: Alert): (h: string)
    ensures Contains(h, a.name) && Contains(h, a.url) && Contains(h, a.time)
    ensures forall i :: 0 <= i < |a.keywords| ==> Contains(h, a.keywords[i])
  {
    var kw := Join(a.keywords, ", ");
    var parts := ["\U{1F6A8} <b>", a.name, "</b>\n", a.url, "\nKeywords: ", kw, "\nTime: ", a.time, "\n"];
    ConcatContains(parts);
    assert parts[1] == a.name && parts[3] == a.url && parts[5] == kw && parts[7] == a.time;
    KeywordsVia(Concat(parts), kw, a.keywords);
    Concat(parts)
  }

  /** Strings contained in `b` are contained in anything containing `b`. */
  lemma KeywordsVia(s: string, b: string, items: seq<string>)
    requires Contains(s, b)
    requires forall i :: 0 <= i < |items| ==> Contains(b, items[i])
    ensures forall i :: 0 <= i < |items| ==> Contains(s, items[i])
  {
    forall i | 0 <= i < |items|
      ensures Contains(s, items[i])
    {
      ContainsTransitive(s, b, items[i]);
    }
  }

  /** The bullet line of every entry of `ts`, one per entry, in order. */
  function Lines(ts: seq<Title>): (ls: seq<string>)
    ensures |ls| == |ts|
  {
    seq(|ts|, i requires 0 <= i < |ts| => BulletLine(ts[i]))
  }

  /** The `for t in titles[:3]: summary += ...` loop appends exactly the
      bullet lines of the entries, in order, and nothing else. */
  lemma {:induction false} BulletsConcat(ts: seq<Title>)
    ensures Bullets(ts) == Concat(Lines(ts))
  {
    if ts != [] {
      BulletsConcat(ts[1..]);
      assert Lines(ts)[1..] == Lines(ts[1..]);
    }
  }

  /** Every bullet line of `ts` appears in the text after any prefix. */
  lemma BulletsAfter(h: string, ts: seq<Title>)
    ensures forall i :: 0 <= i < |ts| ==> Contains(h + Concat(Lines(ts)), BulletLine(ts[i]))
  {
    var ls := Lines(ts);
    ConcatContains(ls);
    ContainsAllWithin(h, Concat(ls), "", ls);
    assert h + Concat(ls) + "" == h + Concat(ls);
    assert forall i :: 0 <= i < |ts| ==> ls[i] == BulletLine(ts[i]);
  }

  /** The message text sent for an alert: the header followed by the bullet
      lines of the excerpts, in order, and nothing else; so it shows every
      excerpt, with the link suffix exactly when the entry has a link. */
  function Render(a: Alert): (r: string)
    ensures r == Header(a) + Concat(Lines(a.excerpts))
    ensures |Header(a)| <= |r| && r[..|Header(a)|] == Header(a)
    ensures forall i :: 0 <= i < |a.excerpts| ==> Contains(r, BulletLine(a.excerpts[i]))
  {
    BulletsConcat(a.excerpts);
    BulletsAfter(Header(a), a.excerpts);
    Header(a) + Bullets(a.excerpts)
  }

  /** The message for a changed page: its header, then the bullet lines of
      the first min(3, n) title entries in document order, and nothing more. */
  lemma AlertMessage(name: string, url: string, pm: PageMatches, now: string)
    ensures var n := if |pm.titles| < MAX_EXCERPTS then |pm.titles| else MAX_EXCERPTS;
            var a := MakeAlert(name, url, pm, now);
            && Render(a) == Header(a) + Concat(Lines(pm.titles[..n]))
            && |Lines(pm.titles[..n])| <= MAX_EXCERPTS
  {
  }
}
