/** Naming of posts and the listing of the posts directory that feeds the
    index page: a post for date d is the file d + ".html"; the listing takes
    the directory's names newest first, keeps those ending in ".html" and
    labels each with the date recovered from its name. */
module Listing {
  import opened Text
  import opened Order

  const HtmlExt: string := ".html"
  const PostTitlePrefix: string := "AI Fact #"
  const IndexLabelPrefix: string := "AI Fact "

  /** f"{date_str}.html" */
  function PostFileName(date: string): string {
    date + HtmlExt
  }

  /** f"AI Fact #{idx+1}": the post title numbers facts from 1. */
  function PostTitle(idx: nat): string {
    PostTitlePrefix + Decimal(idx + 1)
  }

  /** The title ends with the decimal, unpadded, 1-based fact number. */
  lemma PostTitleNumber(idx: nat)
    ensures var t := PostTitle(idx);
      |t| > |PostTitlePrefix| && t[..|PostTitlePrefix|] == PostTitlePrefix &&
      AllDigits(t[|PostTitlePrefix|..]) && t[|PostTitlePrefix|] != '0' &&
      ParseDecimal(t[|PostTitlePrefix|..]) == idx + 1
  {
    var t := PostTitle(idx);
    assert t[|PostTitlePrefix|..] == Decimal(idx + 1);
    DecimalRoundTrip(idx + 1);
  }

  /** Different facts get different titles. */
  lemma PostTitleInjective(i: nat, j: nat)
    requires PostTitle(i) == PostTitle(j)
    ensures i == j
  {
    assert PostTitle(i)[|PostTitlePrefix|..] == Decimal(i + 1);
    assert PostTitle(j)[|PostTitlePrefix|..] == Decimal(j + 1);
    DecimalInjective(i + 1, j + 1);
  }

  /** YYYY-MM-DD, as date.isoformat() writes it. */
  predicate IsIsoDate(d: string) {
    && |d| == 10
    && (forall i :: 0 <= i < 10 && i != 4 && i != 7 ==> IsDigit(d[i]))
    && d[4] == '-' && d[7] == '-'
  }

  lemma IsoDateHasNoExt(d: string)
    requires IsIsoDate(d)
    ensures !Contains(d, HtmlExt)
  {
  }

  /** The date the listing recovers from a post's file name: name.replace(".html", ""). */
  function DateOf(fn: string): string {
    Replace(fn, HtmlExt, "")
  }

  /** No ".html" starts at the front of date + ".html" when the date is not
      empty and holds none: one starting inside the date's last four
      characters would need a '.' where ".html" has a letter. */
  lemma NoExtAtStart(date: string)
    requires date != [] && !Contains(date, HtmlExt)
    ensures (date + HtmlExt)[..|HtmlExt|] != HtmlExt
  {
    var s := date + HtmlExt;
    if |date| >= |HtmlExt| {
      assert s[..|HtmlExt|] == date[..|HtmlExt|];
      assert !OccursAt(date, HtmlExt, 0);
    } else {
      assert s[|date|] == '.';
      assert HtmlExt[|date|] != '.';
    }
  }

  /** For a date that does not itself contain ".html" (an ISO date never
      does), the listing's replace(".html", "") gives back the date a post
      was written for. */
  lemma {:induction false} FileNameRoundTrip(date: string)
    requires !Contains(date, HtmlExt)
    ensures DateOf(PostFileName(date)) == date
    decreases |date|
  {
    var s := date + HtmlExt;
    if date == [] {
      assert s == HtmlExt;
      assert s[|HtmlExt|..] == [];
    } else {
      NoExtAtStart(date);
      NotContainsTail(date, HtmlExt);
      assert s[1..] == date[1..] + HtmlExt;
      FileNameRoundTrip(date[1..]);
      assert [date[0]] + date[1..] == date;
    }
  }

  /** One row of the index: (date, file name, label). */
  datatype PostEntry = PostEntry(date: string, file: string, title: string)

  /** (fn.replace(".html", ""), fn, f"AI Fact {date}") */
  function EntryFor(fn: string): PostEntry {
    var d := DateOf(fn);
    PostEntry(d, fn, IndexLabelPrefix + d)
  }

  /** The names the listing keeps, in their original order. */
  function HtmlNames(names: seq<string>): (r: seq<string>)
    ensures forall x :: x in r <==> x in names && EndsWith(x, HtmlExt)
  {
    if names == [] then []
    else
      var init, last := names[..|names| - 1], names[|names| - 1];
      assert names == init + [last];
      HtmlNames(init) + (if EndsWith(last, HtmlExt) then [last] else [])
  }

  /** What the loop `for fn in names: if fn.endswith(".html"): ...append`
      has appended once it has gone through names. */
  function Entries(names: seq<string>): seq<PostEntry> {
    if names == [] then []
    else
      var last := names[|names| - 1];
      Entries(names[..|names| - 1]) + (if EndsWith(last, HtmlExt) then [EntryFor(last)] else [])
  }

  /** The loop appends exactly one entry per kept name, in order. */
  lemma {:induction false} EntriesOfHtmlNames(names: seq<string>)
    ensures |Entries(names)| == |HtmlNames(names)|
    ensures forall k :: 0 <= k < |Entries(names)| ==> Entries(names)[k] == EntryFor(HtmlNames(names)[k])
  {
    if names != [] {
      EntriesOfHtmlNames(names[..|names| - 1]);
    }
  }

  /** Dropping names keeps a strictly descending order. */
  lemma {:induction false} HtmlNamesKeepOrder(names: seq<string>)
    requires StrictlyDescending(names)
    ensures StrictlyDescending(HtmlNames(names))
  {
    if names != [] {
      var init, last := names[..|names| - 1], names[|names| - 1];
      assert StrictlyDescending(init) by {
        forall i, j | 0 <= i < j < |init| ensures Below(init[j], init[i]) {
          assert init[i] == names[i] && init[j] == names[j];
        }
      }
      HtmlNamesKeepOrder(init);
      forall x | x in HtmlNames(init) ensures Below(last, x) {
        var i :| 0 <= i < |init| && init[i] == x;
        assert names[i] == x;
      }
    }
  }

  /** A strictly descending sequence lists as many names as it holds. */
  lemma {:induction false} DistinctCount(s: seq<string>)
    requires StrictlyDescending(s)
    ensures |set x | x in s| == |s|
  {
    if s != [] {
      var t := s[1..];
      assert StrictlyDescending(t) by {
        forall i, j | 0 <= i < j < |t| ensures Below(t[j], t[i]) {
          assert t[i] == s[i + 1] && t[j] == s[j + 1];
        }
      }
      DistinctCount(t);
      assert s[0] !in t by {
        forall j | 0 <= j < |t| ensures t[j] != s[0] {
          assert Below(s[j + 1], s[0]);
          BelowIrreflexive(s[0]);
        }
      }
      assert s == [s[0]] + t;
      assert (set x | x in s) == {s[0]} + (set x | x in t);
    }
  }

  /** The loop of main that builds all_posts from the sorted names. */
  method CollectPosts(sorted: seq<string>) returns (allPosts: seq<PostEntry>)
    ensures allPosts == Entries(sorted)
  {
    allPosts := [];
    for i := 0 to |sorted|
      invariant allPosts == Entries(sorted[..i])
    {
      var fn := sorted[i];
      assert sorted[..i + 1][..i] == sorted[..i];
      if EndsWith(fn, HtmlExt) {
        var d := Replace(fn, HtmlExt, "");
        allPosts := allPosts + [PostEntry(d, fn, IndexLabelPrefix + d)];
      }
    }
    assert sorted[..|sorted|] == sorted;
  }

  /** Entries whose dates strictly descend carry as many dates as there are
      entries. */
  lemma DistinctDates(entries: seq<PostEntry>)
    requires forall i, j :: 0 <= i < j < |entries| ==> Below(entries[j].date, entries[i].date)
    ensures |set e | e in entries :: e.date| == |entries|
  {
    var ds := seq(|entries|, k requires 0 <= k < |entries| => entries[k].date);
    assert StrictlyDescending(ds);
    DistinctCount(ds);
    assert (set x | x in ds) == (set e | e in entries :: e.date) by {
      forall e | e in entries ensures e.date in ds {
        var k :| 0 <= k < |entries| && entries[k] == e;
        assert ds[k] == e.date;
      }
    }
  }

  /** Some enumeration of a directory's names, each once. */
  ghost function Enumeration(s: set<string>): (r: seq<string>)
    ensures multiset(r) == multiset(s)
    decreases s
  {
    if s == {} then []
    else
      var x :| x in s;
      assert s == {x} + (s - {x});
      assert multiset(s) == multiset{x} + multiset(s - {x});
      [x] + Enumeration(s - {x})
  }

  /** sorted(os.listdir(...), reverse=True): the directory's names, newest
      first. The order os.listdir returns them in does not matter, see
      Order.DescendingUnique. */
  ghost function SortedDir(s: set<string>): (r: seq<string>)
    ensures StrictlyDescending(r)
    ensures multiset(r) == multiset(s)
  {
    var r := SortDescending(Enumeration(s));
    DescendingDistinct(r);
    r
  }

  /** The list all_posts that main builds from a directory holding names s. */
  ghost function AllPosts(s: set<string>): seq<PostEntry> {
    Entries(SortedDir(s))
  }

  /** The listing has one entry per name in s ending in ".html" and no
      other; the names are strictly descending; each entry is the one the
      loop derives from its name. */
  lemma ListingExact(s: set<string>)
    ensures var files := HtmlNames(SortedDir(s));
      && |AllPosts(s)| == |files|
      && (forall k :: 0 <= k < |files| ==> AllPosts(s)[k] == EntryFor(files[k]))
      && (forall fn :: fn in files <==> fn in s && EndsWith(fn, HtmlExt))
      && StrictlyDescending(files)
      && |AllPosts(s)| == |set fn | fn in s && EndsWith(fn, HtmlExt)|
  {
    var sorted := SortedDir(s);
    var files := HtmlNames(sorted);
    EntriesOfHtmlNames(sorted);
    forall fn ensures fn in sorted <==> fn in s {
      assert fn in sorted <==> fn in multiset(sorted);
    }
    HtmlNamesKeepOrder(sorted);
    DistinctCount(files);
    assert (set fn | fn in files) == (set fn | fn in s && EndsWith(fn, HtmlExt));
  }

  /** The entries are newest first: later entries have smaller file names. */
  lemma ListingNewestFirst(s: set<string>, i: int, j: int)
    requires 0 <= i < j < |AllPosts(s)|
    ensures Below(AllPosts(s)[j].file, AllPosts(s)[i].file)
  {
    ListingExact(s);
  }

  /** A post just written for an ISO-like date is listed, under that date. */
  lemma ListingHasPost(s: set<string>, date: string)
    requires PostFileName(date) in s
    requires !Contains(date, HtmlExt)
    ensures PostEntry(date, PostFileName(date), IndexLabelPrefix + date) in AllPosts(s)
  {
    ListingExact(s);
    var fn := PostFileName(date);
    var files := HtmlNames(SortedDir(s));
    assert EndsWith(fn, HtmlExt) by { assert fn[|fn| - |HtmlExt|..] == HtmlExt; }
    var k :| 0 <= k < |files| && files[k] == fn;
    FileNameRoundTrip(date);
    assert AllPosts(s)[k] == EntryFor(fn);
  }
}
