/** The two pages the generator writes: a post page (build_post_html) and
    the index page (build_index). The template text around the
    interpolated values is fixed; what matters is where the values go. No
    HTML escaping is applied: titles, facts, dates and file names are
    pasted in as they are. */
module Pages {
  import opened Text
  import opened Listing

  const SiteTitle: string := "AI Facts Daily"
  const SiteDesc: string := "One short AI fact every day."
  const AmazonTag: string := "aitoolsvault-20"
  const AffiliateUrl: string := "https://www.amazon.com/s?k=artificial+intelligence+books&tag=" + AmazonTag
  const Disclosure: string := "Disclosure: As an Amazon Associate I earn from qualifying purchases."
  const Css: string := "body{font-family:sans-serif;max-width:700px;margin:40px auto;padding:0 10px;} .card{background:#f4f4f4;padding:20px;border-radius:12px;margin-bottom:20px;} a{color:#0077cc;}"

  const EmDash: string := " \U{2014} "

  // The fixed pieces of the post template, in order.
  const PostHead: string := "<!doctype html><html><head><meta charset=\"utf-8\">\n<title>"
  const PostAfterTitle: string :=
    EmDash + SiteTitle + "</title><style>" + Css + "</style></head><body>\n<div class=\"card\"><h1>"
  const PostAfterHeading: string := "</h1><p>"
  const PostTail: string :=
    "</p>\n<p><a href=\"" + AffiliateUrl + "\" target=\"_blank\">Recommended AI Books</a></p>\n<p><small>"
    + Disclosure + "</small></p></div></body></html>"

  /** build_post_html(date_str, title, fact). The date parameter is not used
      by the template. */
  function BuildPostHtml(date: string, title: string, fact: string): string {
    PostHead + title + PostAfterTitle + title + PostAfterHeading + fact + PostTail
  }

  /** Where the fact starts on a post page with the given title. */
  function FactOffset(title: string): nat {
    |PostHead| + |title| + |PostAfterTitle| + |title| + |PostAfterHeading|
  }

  /** Where the pieces of h + t + b + t + c + f + e sit, whatever they hold. */
  lemma FillLayout(h: string, t: string, b: string, c: string, f: string, e: string)
    ensures var page := h + t + b + t + c + f + e;
      var off := |h| + |t| + |b| + |t| + |c|;
      && |page| == off + |f| + |e|
      && page[|h|..|h| + |t|] == t
      && page[|h| + |t| + |b|..|h| + |t| + |b| + |t|] == t
      && page[off..off + |f|] == f
  {
    var page := h + t + b + t + c + f + e;
    var off := |h| + |t| + |b| + |t| + |c|;
    assert page == h + (t + (b + (t + (c + (f + e)))));
    assert page[|h|..|h| + |t|] == t;
    assert page[|h| + |t| + |b|..|h| + |t| + |b| + |t|] == t;
    assert page[off..off + |f|] == f;
  }

  /** The post page carries the title (in <title> and in <h1>) and the fact
      character for character, at positions fixed by the title's length:
      nothing is escaped, whatever the fact holds. */
  lemma PostPageEmbeds(date: string, title: string, fact: string)
    ensures var page := BuildPostHtml(date, title, fact);
      && |page| == FactOffset(title) + |fact| + |PostTail|
      && page[|PostHead|..|PostHead| + |title|] == title
      && page[|PostHead| + |title| + |PostAfterTitle|..|PostHead| + |title| + |PostAfterTitle| + |title|] == title
      && page[FactOffset(title)..FactOffset(title) + |fact|] == fact
      && Contains(page, fact)
  {
    FillLayout(PostHead, title, PostAfterTitle, PostAfterHeading, fact, PostTail);
    assert OccursAt(BuildPostHtml(date, title, fact), fact, FactOffset(title));
  }

  lemma PostPageHasFact(date: string, title: string, fact: string)
    ensures Contains(BuildPostHtml(date, title, fact), fact)
  {
    PostPageEmbeds(date, title, fact);
  }

  /** The post page does not depend on the date it is written for. */
  lemma PostPageIgnoresDate(d1: string, d2: string, title: string, fact: string)
    ensures BuildPostHtml(d1, title, fact) == BuildPostHtml(d2, title, fact)
  {
  }

  /** Two post pages with the same title are equal only if their facts are. */
  lemma PostPageDeterminesFact(date: string, title: string, f1: string, f2: string)
    requires BuildPostHtml(date, title, f1) == BuildPostHtml(date, title, f2)
    ensures f1 == f2
  {
    PostPageEmbeds(date, title, f1);
    PostPageEmbeds(date, title, f2);
  }

  // ---------------------------------------------------------------------
  // build_index

  const ItemOpen: string := "<li>"
  const ItemHref: string := "<a href='posts/"
  const ItemAfterHref: string := "'>"
  const ItemClose: string := "</a></li>"

  /** f"<li><a href='posts/{fn}'>{date} — {title}</a></li>" */
  function ItemHtml(e: PostEntry): string {
    ItemOpen + ItemHref + e.file + ItemAfterHref + e.date + EmDash + e.title + ItemClose
  }

  /** "".join(ItemHtml(e) for e in posts) */
  function Items(posts: seq<PostEntry>): string {
    if posts == [] then [] else ItemHtml(posts[0]) + Items(posts[1..])
  }

  const IndexHead: string :=
    "<!doctype html><html><head><meta charset=\"utf-8\"><title>" + SiteTitle + "</title><style>" + Css
    + "</style></head><body>\n<h1>" + SiteTitle + "</h1><p>" + SiteDesc + "</p><ul>"
  const IndexTail: string := "</ul><p><small>" + Disclosure + "</small></p></body></html>"

  /** build_index(posts) */
  function BuildIndex(posts: seq<PostEntry>): string {
    IndexHead + Items(posts) + IndexTail
  }

  /** The items of a list are the items of its parts, in order: entry k's
      item comes after those of entries 0..k-1 and before the rest. */
  lemma {:induction false} ItemsAppend(a: seq<PostEntry>, b: seq<PostEntry>)
    ensures Items(a + b) == Items(a) + Items(b)
  {
    if a == [] {
      assert a + b == b;
    } else {
      assert (a + b)[0] == a[0];
      assert (a + b)[1..] == a[1..] + b;
      ItemsAppend(a[1..], b);
    }
  }

  /** Where the pieces of h + m + e sit, whatever they hold. */
  lemma WrapLayout(h: string, m: string, e: string)
    ensures var page := h + m + e;
      && |page| == |h| + |m| + |e|
      && page[..|h|] == h
      && page[|h|..|h| + |m|] == m
      && page[|h| + |m|..] == e
  {
    var page := h + m + e;
    assert page[..|h|] == h;
    assert page[|h|..|h| + |m|] == m;
    assert page[|h| + |m|..] == e;
  }

  /** The index page is the fixed head, the items and the fixed tail: two
      indexes differ exactly where their items do. */
  lemma IndexLayout(posts: seq<PostEntry>)
    ensures var page := BuildIndex(posts);
      && |page| == |IndexHead| + |Items(posts)| + |IndexTail|
      && page[..|IndexHead|] == IndexHead
      && page[|IndexHead|..|IndexHead| + |Items(posts)|] == Items(posts)
      && page[|IndexHead| + |Items(posts)|..] == IndexTail
  {
    WrapLayout(IndexHead, Items(posts), IndexTail);
  }

  lemma IndexDeterminesItems(p1: seq<PostEntry>, p2: seq<PostEntry>)
    requires BuildIndex(p1) == BuildIndex(p2)
    ensures Items(p1) == Items(p2)
  {
    IndexLayout(p1);
    IndexLayout(p2);
  }

  // ---------------------------------------------------------------------
  // Counting "<li>"

  /** s.count("<li>"): leftmost, non-overlapping occurrences. */
  function CountLi(s: string): nat
    decreases |s|
  {
    if |s| < |ItemOpen| then 0
    else if s[..|ItemOpen|] == ItemOpen then 1 + CountLi(s[|ItemOpen|..])
    else CountLi(s[1..])
  }

  /** No "<li>" can start anywhere in s, even with more text after it:
      every '<' in s is followed, inside s, by something other than 'l'. */
  predicate NoItemStart(s: string) {
    forall p :: 0 <= p < |s| && s[p] == '<' ==> p + 1 < |s| && s[p + 1] != 'l'
  }

  predicate NoLessThan(s: string) {
    forall p :: 0 <= p < |s| ==> s[p] != '<'
  }

  lemma NoItemStartAppend(a: string, b: string)
    requires NoItemStart(a) && NoItemStart(b)
    ensures NoItemStart(a + b)
  {
    forall p | 0 <= p < |a + b| && (a + b)[p] == '<'
      ensures p + 1 < |a + b| && (a + b)[p + 1] != 'l'
    {
      if p < |a| {
        assert a[p] == '<';
      } else {
        assert b[p - |a|] == '<';
      }
    }
  }

  lemma {:induction false} CountLiSkips(a: string, b: string)
    requires NoItemStart(a)
    ensures CountLi(a + b) == CountLi(b)
    decreases |a|
  {
    var s := a + b;
    if a == [] {
      assert s == b;
    } else if |s| >= |ItemOpen| {
      assert s[..|ItemOpen|] != ItemOpen by {
        if a[0] == '<' { assert 1 < |a| && s[1] == a[1]; }
        else { assert s[0] == a[0]; }
      }
      assert s[1..] == a[1..] + b;
      CountLiSkips(a[1..], b);
    }
  }

  /** The part of an item after its "<li>", for an entry whose fields hold
      no '<'. */
  lemma ItemRestHasNoItemStart(e: PostEntry)
    requires NoLessThan(e.file) && NoLessThan(e.date) && NoLessThan(e.title)
    ensures NoItemStart(ItemHref + e.file + ItemAfterHref + e.date + EmDash + e.title + ItemClose)
  {
    NoItemStartAppend(ItemHref, e.file);
    NoItemStartAppend(ItemHref + e.file, ItemAfterHref);
    NoItemStartAppend(ItemHref + e.file + ItemAfterHref, e.date);
    NoItemStartAppend(ItemHref + e.file + ItemAfterHref + e.date, EmDash);
    NoItemStartAppend(ItemHref + e.file + ItemAfterHref + e.date + EmDash, e.title);
    NoItemStartAppend(ItemHref + e.file + ItemAfterHref + e.date + EmDash + e.title, ItemClose);
  }

  /** An item followed by any text holds one more "<li>" than the text. */
  lemma CountLiItem(e: PostEntry, tail: string)
    requires NoLessThan(e.file) && NoLessThan(e.date) && NoLessThan(e.title)
    ensures CountLi(ItemHtml(e) + tail) == 1 + CountLi(tail)
  {
    var rest := ItemHref + e.file + ItemAfterHref + e.date + EmDash + e.title + ItemClose;
    var s := ItemHtml(e) + tail;
    assert s == ItemOpen + (rest + tail);
    assert s[..|ItemOpen|] == ItemOpen;
    assert s[|ItemOpen|..] == rest + tail;
    ItemRestHasNoItemStart(e);
    CountLiSkips(rest, tail);
  }

  /** build_index emits exactly one "<li>" per entry, provided no entry's
      date, file name or label contains '<' (nothing is escaped, so such a
      character would pass into the page as markup). */
  lemma {:induction false} OneItemPerEntry(posts: seq<PostEntry>)
    requires forall k :: 0 <= k < |posts| ==>
      NoLessThan(posts[k].file) && NoLessThan(posts[k].date) && NoLessThan(posts[k].title)
    ensures CountLi(Items(posts)) == |posts|
  {
    if posts != [] {
      CountLiItem(posts[0], Items(posts[1..]));
      OneItemPerEntry(posts[1..]);
    }
  }
}
