/** One run of the generator (main) over an abstract store: the text of the
    fact file, the saved rotation state, the posts directory and the index
    page. A run reads the facts and the state, advances the cursor, saves the
    state, writes the day's post, lists the posts directory and writes the
    index. Step is the specification of a run; Site.Run is the run itself,
    written the way main is, and is proved to do what Step says. */
module Generator {
  import opened Text
  import opened Order
  import opened Facts
  import opened Rotation
  import opened Listing
  import opened Pages

  datatype Option<T> = None | Some(value: T)

  /** A write a run makes, recorded in the order it is made. */
  datatype Write = StateSaved(lastIndex: int) | PostWritten(file: string) | IndexWritten

  /** factText: the text of the fact file. saved: the last_index in the state
      file, None when there is no state file. posts: the posts directory, file
      name to page. index: the index page, None before the first run. writes:
      every write made so far, oldest first. */
  datatype Store = Store(
    factText: string,
    saved: Option<int>,
    posts: map<string, string>,
    index: Option<string>,
    writes: seq<Write>)

  /** A run either stops at the modulo by len(facts) == 0, which raises
      ZeroDivisionError, or publishes the fact at idx. */
  datatype RunOutcome = ZeroDivision | Published(idx: nat)

  /** load_state()["last_index"]: the saved value, or -1 with no state file. */
  function LastIndex(saved: Option<int>): int {
    match saved
    case None => FreshLastIndex
    case Some(v) => v
  }

  /** The index page for a posts directory holding the names keys. */
  ghost function IndexPage(keys: set<string>): string {
    BuildIndex(AllPosts(keys))
  }

  /** The store after a run on date that publishes fact number idx, fact:
      the state is saved, then the post is written, then the index. */
  ghost function Publish(s: Store, date: string, idx: nat, fact: string): Store {
    var fn := PostFileName(date);
    var posts := s.posts[fn := BuildPostHtml(date, PostTitle(idx), fact)];
    Store(s.factText, Some(idx), posts, Some(IndexPage(posts.Keys)),
          s.writes + [StateSaved(idx)] + [PostWritten(fn)] + [IndexWritten])
  }

  /** One run of main on a given date, given the facts load_facts
      returned. */
  ghost function StepOn(s: Store, facts: seq<string>, date: string): (Store, RunOutcome) {
    if |facts| == 0 then (s, ZeroDivision)
    else
      var idx := NextIndex(LastIndex(s.saved), |facts|);
      (Publish(s, date, idx, facts[idx]), Published(idx))
  }

  /** What one run of main does to the store, on a given date. */
  ghost function Step(s: Store, date: string): (Store, RunOutcome) {
    StepOn(s, LoadFacts(s.factText), date)
  }

  /** The store and outcomes after one run per date, in order. */
  ghost function RunAll(s: Store, dates: seq<string>): (Store, seq<RunOutcome>)
    decreases |dates|
  {
    if dates == [] then (s, [])
    else
      var before := RunAll(s, dates[..|dates| - 1]);
      var after := Step(before.0, dates[|dates| - 1]);
      (after.0, before.1 + [after.1])
  }

  /** The same runs, each given the same facts. */
  ghost function RunOn(s: Store, facts: seq<string>, dates: seq<string>): (Store, seq<RunOutcome>)
    decreases |dates|
  {
    if dates == [] then (s, [])
    else
      var before := RunOn(s, facts, dates[..|dates| - 1]);
      var after := StepOn(before.0, facts, dates[|dates| - 1]);
      (after.0, before.1 + [after.1])
  }

  // ---------------------------------------------------------------------
  // One run

  /** A run fails exactly when the fact file holds no non-blank line, and
      then nothing at all has been written: not the state, not a post, not
      the index. */
  lemma StepFailsOnlyWithoutFacts(s: Store, date: string)
    ensures Step(s, date).1 == ZeroDivision <==> |LoadFacts(s.factText)| == 0
    ensures Step(s, date).1 == ZeroDivision ==> Step(s, date).0 == s
  {
  }

  /** A run with facts picks the index one place after the saved one,
      inside the fact list, and publishes the fact at that index. */
  lemma StepPicksNext(s: Store, facts: seq<string>, date: string)
    requires |facts| > 0
    ensures var out := StepOn(s, facts, date).1;
      && out == Published(NextIndex(LastIndex(s.saved), |facts|))
      && out.idx < |facts|
      && Congruent(out.idx, LastIndex(s.saved) + 1, |facts|)
      && StepOn(s, facts, date).0 == Publish(s, date, out.idx, facts[out.idx])
  {
  }

  /** Publishing saves the chosen index, and saves it before it writes the
      post and then the index; the fact file is not touched. */
  lemma PublishSavesFirst(s: Store, date: string, idx: nat, fact: string)
    ensures var t := Publish(s, date, idx, fact);
      && t.saved == Some(idx)
      && t.factText == s.factText
      && t.writes == s.writes + [StateSaved(idx), PostWritten(PostFileName(date)), IndexWritten]
  {
    AppendThree(s.writes, StateSaved(idx), PostWritten(PostFileName(date)), IndexWritten);
  }

  lemma AppendThree<T>(w: seq<T>, a: T, b: T, c: T)
    ensures w + [a] + [b] + [c] == w + [a, b, c]
  {
  }

  /** Publishing writes the post file for the date, whose page holds the fact
      verbatim, adds no other file and leaves every other post as it was. */
  lemma PublishWritesPost(s: Store, date: string, idx: nat, fact: string)
    ensures var t, fn := Publish(s, date, idx, fact), PostFileName(date);
      && fn in t.posts
      && Contains(t.posts[fn], fact)
      && t.posts.Keys == s.posts.Keys + {fn}
      && (forall other :: other in s.posts && other != fn ==> t.posts[other] == s.posts[other])
  {
    PostPageHasFact(date, PostTitle(idx), fact);
  }

  lemma PublishKeys(s: Store, date: string, idx: nat, fact: string)
    ensures Publish(s, date, idx, fact).posts.Keys == s.posts.Keys + {PostFileName(date)}
  {
  }

  /** The index written by a run lists the post written by that run. */
  lemma PublishListsPost(s: Store, date: string, idx: nat, fact: string)
    requires !Contains(date, HtmlExt)
    ensures var t := Publish(s, date, idx, fact);
      && t.index == Some(BuildIndex(AllPosts(t.posts.Keys)))
      && PostEntry(date, PostFileName(date), IndexLabelPrefix + date) in AllPosts(t.posts.Keys)
  {
    var t := Publish(s, date, idx, fact);
    ListingHasPost(t.posts.Keys, date);
  }

  /** A second run on the same date publishes the next fact, a different
      one when there are at least two. */
  lemma SameDateAdvances(s: Store, facts: seq<string>, date: string)
    requires |facts| > 0
    ensures var t, o1 := StepOn(s, facts, date).0, StepOn(s, facts, date).1;
      var o2 := StepOn(t, facts, date).1;
      && o1.Published? && o2.Published?
      && o2.idx == NextIndex(o1.idx, |facts|)
      && (|facts| >= 2 ==> o2.idx != o1.idx)
  {
    var o1 := StepOn(s, facts, date).1;
    StepPicksNext(s, facts, date);
    PublishSavesFirst(s, date, o1.idx, facts[o1.idx]);
    NextIndexWraps(o1.idx, |facts|);
  }

  /** Publishing twice on the same date leaves one post file for that
      date, holding the second page: the first is overwritten. */
  lemma PublishSameDateTwice(s: Store, date: string, i: nat, f: string, j: nat, g: string)
    ensures var t := Publish(s, date, i, f);
      var u := Publish(t, date, j, g);
      && u.posts.Keys == t.posts.Keys
      && u.posts == s.posts[PostFileName(date) := BuildPostHtml(date, PostTitle(j), g)]
  {
    var fn := PostFileName(date);
    Overwrite(s.posts, fn, BuildPostHtml(date, PostTitle(i), f), BuildPostHtml(date, PostTitle(j), g));
  }

  lemma Overwrite<K, V>(m: map<K, V>, k: K, x: V, y: V)
    ensures m[k := x][k := y] == m[k := y]
    ensures m[k := x][k := y].Keys == m[k := x].Keys
  {
  }

  // ---------------------------------------------------------------------
  // Many runs

  /** No run writes the fact file, and each run yields one outcome. */
  lemma {:induction false} RunOnKeepsFactFile(s: Store, facts: seq<string>, dates: seq<string>)
    ensures RunOn(s, facts, dates).0.factText == s.factText
    ensures |RunOn(s, facts, dates).1| == |dates|
    decreases |dates|
  {
    if dates != [] {
      var before := RunOn(s, facts, dates[..|dates| - 1]);
      RunOnKeepsFactFile(s, facts, dates[..|dates| - 1]);
      if |facts| > 0 {
        StepPicksNext(before.0, facts, dates[|dates| - 1]);
        var out := StepOn(before.0, facts, dates[|dates| - 1]).1;
        PublishSavesFirst(before.0, dates[|dates| - 1], out.idx, facts[out.idx]);
      }
    }
  }

  /** Since no run writes the fact file, every run of a sequence loads the
      same facts as the first. */
  lemma {:induction false} RunAllLoadsSameFacts(s: Store, dates: seq<string>)
    ensures RunAll(s, dates) == RunOn(s, LoadFacts(s.factText), dates)
    decreases |dates|
  {
    if dates != [] {
      var init := dates[..|dates| - 1];
      RunAllLoadsSameFacts(s, init);
      RunOnKeepsFactFile(s, LoadFacts(s.factText), init);
    }
  }

  /** After the runs the saved cursor has moved one place per run. */
  lemma {:induction false} RunOnCursor(s: Store, facts: seq<string>, dates: seq<string>)
    requires |facts| > 0
    ensures LastIndex(RunOn(s, facts, dates).0.saved) == LastIndexAfter(LastIndex(s.saved), |facts|, |dates|)
    decreases |dates|
  {
    if dates != [] {
      var init := dates[..|dates| - 1];
      RunOnCursor(s, facts, init);
      var before := RunOn(s, facts, init);
      var out := StepOn(before.0, facts, dates[|dates| - 1]).1;
      StepPicksNext(before.0, facts, dates[|dates| - 1]);
      PublishSavesFirst(before.0, dates[|dates| - 1], out.idx, facts[out.idx]);
    }
  }

  /** Run k (from 0) publishes the index LastIndexAfter(last, n, k + 1). */
  lemma {:induction false} RunOnOutcome(s: Store, facts: seq<string>, dates: seq<string>, k: nat)
    requires |facts| > 0 && k < |dates|
    ensures |RunOn(s, facts, dates).1| == |dates|
    ensures RunOn(s, facts, dates).1[k] == Published(LastIndexAfter(LastIndex(s.saved), |facts|, k + 1))
    decreases |dates|
  {
    RunOnKeepsFactFile(s, facts, dates);
    var init := dates[..|dates| - 1];
    var before := RunOn(s, facts, init);
    RunOnKeepsFactFile(s, facts, init);
    if k < |init| {
      RunOnOutcome(s, facts, init, k);
      assert RunOn(s, facts, dates).1[k] == before.1[k];
    } else {
      assert k == |init|;
      var n, last := |facts|, LastIndex(s.saved);
      var out := StepOn(before.0, facts, dates[|dates| - 1]).1;
      RunOnCursor(s, facts, init);
      var cursor := LastIndex(before.0.saved);
      assert cursor == LastIndexAfter(last, n, |init|);
      StepPicksNext(before.0, facts, dates[|dates| - 1]);
      assert out == Published(NextIndex(cursor, n));
      assert LastIndexAfter(last, n, |init| + 1) == NextIndex(cursor, n);
      assert RunOn(s, facts, dates).1 == before.1 + [out];
    }
  }

  /** Each run moves the cursor one place: run k (from 0) publishes the
      index LastIndexAfter(last, n, k + 1). */
  lemma RunOnRotates(s: Store, facts: seq<string>, dates: seq<string>)
    requires |facts| > 0
    ensures var t, outs := RunOn(s, facts, dates).0, RunOn(s, facts, dates).1;
      && |outs| == |dates|
      && LastIndex(t.saved) == LastIndexAfter(LastIndex(s.saved), |facts|, |dates|)
      && (forall k :: 0 <= k < |dates| ==> outs[k] == Published(LastIndexAfter(LastIndex(s.saved), |facts|, k + 1)))
  {
    RunOnKeepsFactFile(s, facts, dates);
    RunOnCursor(s, facts, dates);
    forall k | 0 <= k < |dates|
      ensures RunOn(s, facts, dates).1[k] == Published(LastIndexAfter(LastIndex(s.saved), |facts|, k + 1))
    {
      RunOnOutcome(s, facts, dates, k);
    }
  }

  /** From no saved state, run k (counting from 0) publishes fact k mod n:
      0, 1, ..., n - 1, 0, 1, ... whatever the dates are. */
  lemma FreshRunsCycle(s: Store, facts: seq<string>, dates: seq<string>)
    requires s.saved == None && |facts| > 0
    ensures var outs := RunOn(s, facts, dates).1;
      |outs| == |dates| && forall k :: 0 <= k < |dates| ==> outs[k] == Published(k % |facts|)
  {
    RunOnRotates(s, facts, dates);
    forall k | 0 <= k < |dates| ensures RunOn(s, facts, dates).1[k] == Published(k % |facts|) {
      FreshStartPicks(|facts|, k);
    }
  }

  /** Without facts every run fails and the store never changes. */
  lemma {:induction false} NoFactsNoChange(s: Store, dates: seq<string>)
    ensures RunOn(s, [], dates).0 == s
    ensures |RunOn(s, [], dates).1| == |dates|
    ensures forall k :: 0 <= k < |dates| ==> RunOn(s, [], dates).1[k] == ZeroDivision
    decreases |dates|
  {
    if dates != [] {
      NoFactsNoChange(s, dates[..|dates| - 1]);
    }
  }

  lemma FilesOfLast(dates: seq<string>)
    requires dates != []
    ensures (set d | d in dates :: PostFileName(d))
      == (set d | d in dates[..|dates| - 1] :: PostFileName(d)) + {PostFileName(dates[|dates| - 1])}
  {
    assert dates == dates[..|dates| - 1] + [dates[|dates| - 1]];
  }

  /** Runs add one post file per date and remove none. */
  lemma {:induction false} RunOnPosts(s: Store, facts: seq<string>, dates: seq<string>)
    requires |facts| > 0
    ensures RunOn(s, facts, dates).0.posts.Keys == s.posts.Keys + set d | d in dates :: PostFileName(d)
    decreases |dates|
  {
    if dates != [] {
      var init := dates[..|dates| - 1];
      RunOnPosts(s, facts, init);
      var before := RunOn(s, facts, init);
      var out := StepOn(before.0, facts, dates[|dates| - 1]).1;
      StepPicksNext(before.0, facts, dates[|dates| - 1]);
      PublishKeys(before.0, dates[|dates| - 1], out.idx, facts[out.idx]);
      FilesOfLast(dates);
    }
  }

  /** The index the last run writes is the one for the final posts
      directory. */
  lemma LastRunWritesIndex(s: Store, facts: seq<string>, dates: seq<string>)
    requires |facts| > 0
    requires dates != []
    ensures var t := RunOn(s, facts, dates).0; t.index == Some(BuildIndex(AllPosts(t.posts.Keys)))
  {
    var before := RunOn(s, facts, dates[..|dates| - 1]);
    var out := StepOn(before.0, facts, dates[|dates| - 1]).1;
    StepPicksNext(before.0, facts, dates[|dates| - 1]);
  }

  /** After runs on ISO dates into an empty posts directory, the index lists
      one entry for every distinct date and nothing else, newest date
      first, each as (date, date + ".html", "AI Fact " + date). */
  lemma IndexAfterRuns(s: Store, facts: seq<string>, dates: seq<string>)
    requires |facts| > 0
    requires s.posts == map[]
    requires dates != []
    requires forall k :: 0 <= k < |dates| ==> IsIsoDate(dates[k])
    ensures var t := RunOn(s, facts, dates).0;
      var entries := AllPosts(t.posts.Keys);
      && t.index == Some(BuildIndex(entries))
      && (forall e :: e in entries ==> e.date in dates && e == PostEntry(e.date, PostFileName(e.date), IndexLabelPrefix + e.date))
      && (forall d :: d in dates ==> PostEntry(d, PostFileName(d), IndexLabelPrefix + d) in entries)
      && (forall i, j :: 0 <= i < j < |entries| ==> Below(entries[j].date, entries[i].date))
      && |entries| == |set d | d in dates|
  {
    var keys := RunOn(s, facts, dates).0.posts.Keys;
    RunOnPosts(s, facts, dates);
    LastRunWritesIndex(s, facts, dates);
    ListingOfDates(keys, dates);
  }

  /** The index built after those runs holds exactly one "<li>" item per
      distinct date. */
  lemma IndexItemsCountDates(s: Store, facts: seq<string>, dates: seq<string>)
    requires |facts| > 0
    requires s.posts == map[]
    requires dates != []
    requires forall k :: 0 <= k < |dates| ==> IsIsoDate(dates[k])
    ensures CountLi(Items(AllPosts(RunOn(s, facts, dates).0.posts.Keys))) == |set d | d in dates|
  {
    var entries := AllPosts(RunOn(s, facts, dates).0.posts.Keys);
    IndexAfterRuns(s, facts, dates);
    forall k | 0 <= k < |entries|
      ensures NoLessThan(entries[k].file) && NoLessThan(entries[k].date) && NoLessThan(entries[k].title)
    {
      var e := entries[k];
      assert e in entries;
      var i :| 0 <= i < |dates| && dates[i] == e.date;
      IsoEntryNoLessThan(dates[i]);
    }
    OneItemPerEntry(entries);
  }

  /** The fields of the entry for an ISO date hold no '<'. */
  lemma IsoEntryNoLessThan(d: string)
    requires IsIsoDate(d)
    ensures NoLessThan(d) && NoLessThan(PostFileName(d)) && NoLessThan(IndexLabelPrefix + d)
  {
    assert NoLessThan(d) by {
      forall p | 0 <= p < |d| ensures d[p] != '<' {
        if p != 4 && p != 7 { assert IsDigit(d[p]); }
      }
    }
  }

  /** Every entry listed from the posts of some ISO dates belongs to one of
      them: it is the entry for that date's post. */
  lemma ListedAreDates(keys: set<string>, dates: seq<string>)
    requires keys == set d | d in dates :: PostFileName(d)
    requires forall k :: 0 <= k < |dates| ==> IsIsoDate(dates[k])
    ensures var entries := AllPosts(keys);
      forall k :: 0 <= k < |entries| ==>
        && entries[k].date in dates
        && entries[k] == PostEntry(entries[k].date, PostFileName(entries[k].date), IndexLabelPrefix + entries[k].date)
        && |entries[k].date| == 10
  {
    var entries := AllPosts(keys);
    ListingExact(keys);
    var files := HtmlNames(SortedDir(keys));
    forall k | 0 <= k < |entries|
      ensures entries[k].date in dates
      ensures entries[k] == PostEntry(entries[k].date, PostFileName(entries[k].date), IndexLabelPrefix + entries[k].date)
      ensures |entries[k].date| == 10
    {
      var fn := files[k];
      assert fn in keys;
      var d :| d in dates && fn == PostFileName(d);
      IsoDateHasNoExt(d);
      FileNameRoundTrip(d);
      assert entries[k] == EntryFor(fn);
    }
  }

  /** The post of every date is listed. */
  lemma DatesAreListed(keys: set<string>, dates: seq<string>)
    requires keys == set d | d in dates :: PostFileName(d)
    requires forall k :: 0 <= k < |dates| ==> IsIsoDate(dates[k])
    ensures forall d :: d in dates ==> PostEntry(d, PostFileName(d), IndexLabelPrefix + d) in AllPosts(keys)
  {
    forall d | d in dates ensures PostEntry(d, PostFileName(d), IndexLabelPrefix + d) in AllPosts(keys) {
      IsoDateHasNoExt(d);
      ListingHasPost(keys, d);
    }
  }

  /** Listed dates strictly descend, as their file names do. */
  lemma ListedDatesDescend(keys: set<string>, dates: seq<string>)
    requires keys == set d | d in dates :: PostFileName(d)
    requires forall k :: 0 <= k < |dates| ==> IsIsoDate(dates[k])
    ensures var entries := AllPosts(keys);
      forall i, j :: 0 <= i < j < |entries| ==> Below(entries[j].date, entries[i].date)
  {
    var entries := AllPosts(keys);
    ListingExact(keys);
    ListedAreDates(keys, dates);
    forall i, j | 0 <= i < j < |entries| ensures Below(entries[j].date, entries[i].date) {
      assert Below(entries[j].file, entries[i].file);
      BelowSameLengthAppend(entries[j].date, entries[i].date, HtmlExt);
    }
  }

  /** The listing of a directory holding exactly the posts of some ISO
      dates. */
  lemma ListingOfDates(keys: set<string>, dates: seq<string>)
    requires keys == set d | d in dates :: PostFileName(d)
    requires forall k :: 0 <= k < |dates| ==> IsIsoDate(dates[k])
    ensures var entries := AllPosts(keys);
      && (forall e :: e in entries ==> e.date in dates && e == PostEntry(e.date, PostFileName(e.date), IndexLabelPrefix + e.date))
      && (forall d :: d in dates ==> PostEntry(d, PostFileName(d), IndexLabelPrefix + d) in entries)
      && (forall i, j :: 0 <= i < j < |entries| ==> Below(entries[j].date, entries[i].date))
      && |entries| == |set d | d in dates|
  {
    var entries := AllPosts(keys);
    ListedAreDates(keys, dates);
    DatesAreListed(keys, dates);
    ListedDatesDescend(keys, dates);
    DistinctDates(entries);
    assert (set e | e in entries :: e.date) == (set d | d in dates) by {
      forall d | d in dates ensures d in (set e | e in entries :: e.date) {
        var e := PostEntry(d, PostFileName(d), IndexLabelPrefix + d);
        assert e in entries;
      }
    }
  }

  // ---------------------------------------------------------------------
  // The example of two facts, "A" and "B"

  /** Two lines that are already facts, joined by a newline, load as those
      two facts. */
  lemma TwoLinesLoad(a: string, b: string)
    requires a != [] && IsStripped(a) && NoLineBreak(a)
    requires b != [] && IsStripped(b) && NoLineBreak(b)
    ensures LoadFacts(a + ['\n'] + b) == [a, b]
  {
    SplitLinesAtBreak(a, '\n', b);
    SplitLinesSingle(b);
    StripOfStripped(a);
    StripOfStripped(b);
    assert [a, b] == [a] + [b];
    NormalizeAppend([a], [b]);
    NormalizeSingle(a);
    NormalizeSingle(b);
  }

  lemma TwoFactsLoad()
    ensures LoadFacts("A\nB") == ["A", "B"]
  {
    assert "A\nB" == "A" + ['\n'] + "B";
    TwoLinesLoad("A", "B");
  }

  /** From a fresh start with the facts "A" and "B", the runs publish
      fact 0 ("A"), fact 1 ("B"), fact 0, fact 1, ... */
  lemma TwoFactsAlternate(s: Store, dates: seq<string>)
    requires s.factText == "A\nB" && s.saved == None
    ensures |RunAll(s, dates).1| == |dates|
    ensures forall k :: 0 <= k < |dates| ==> RunAll(s, dates).1[k] == Published(k % 2)
  {
    TwoFactsLoad();
    RunAllLoadsSameFacts(s, dates);
    FreshRunsCycle(s, ["A", "B"], dates);
  }

  // ---------------------------------------------------------------------
  // The run itself

  /** The files and state the generator works on. */
  class Site {
    var factText: string
    var saved: Option<int>
    var posts: map<string, string>
    var index: Option<string>
    var writes: seq<Write>

    function Snapshot(): Store
      reads this
    {
      Store(factText, saved, posts, index, writes)
    }

    constructor (factText: string, saved: Option<int>, posts: map<string, string>, index: Option<string>)
      ensures Snapshot() == Store(factText, saved, posts, index, [])
    {
      this.factText := factText;
      this.saved := saved;
      this.posts := posts;
      this.index := index;
      this.writes := [];
    }

    /** main(), on the given date. */
    method Run(date: string) returns (outcome: RunOutcome)
      modifies this
      ensures Snapshot() == Step(old(Snapshot()), date).0
      ensures outcome == Step(old(Snapshot()), date).1
    {
      ghost var s0 := Snapshot();
      var facts := LoadFacts(factText);
      var last := LastIndex(saved);
      if |facts| == 0 {
        return ZeroDivision;
      }
      var idx := NextIndex(last, |facts|);
      SaveState(idx);
      var title := PostTitle(idx);
      var filename := PostFileName(date);
      WritePost(filename, BuildPostHtml(date, title, facts[idx]));
      var allPosts := ListPosts(posts);
      WriteIndex(BuildIndex(allPosts));
      outcome := Published(idx);
      StepPicksNext(s0, facts, date);
      PublishOf(s0, Snapshot(), date, idx, facts[idx]);
    }

    /** save_state: the state file now holds idx. */
    method SaveState(idx: int)
      modifies this
      ensures saved == Some(idx) && writes == old(writes) + [StateSaved(idx)]
      ensures factText == old(factText) && posts == old(posts) && index == old(index)
    {
      saved := Some(idx);
      writes := writes + [StateSaved(idx)];
    }

    /** Writing a post file: the file named filename now holds page. */
    method WritePost(filename: string, page: string)
      modifies this
      ensures posts == old(posts)[filename := page] && writes == old(writes) + [PostWritten(filename)]
      ensures factText == old(factText) && saved == old(saved) && index == old(index)
    {
      posts := posts[filename := page];
      writes := writes + [PostWritten(filename)];
    }

    /** Writing index.html: the index now holds page. */
    method WriteIndex(page: string)
      modifies this
      ensures index == Some(page) && writes == old(writes) + [IndexWritten]
      ensures factText == old(factText) && saved == old(saved) && posts == old(posts)
    {
      index := Some(page);
      writes := writes + [IndexWritten];
    }
  }

  /** A store that agrees with Publish(s, date, idx, fact) field by field is
      that store. */
  lemma PublishOf(s: Store, t: Store, date: string, idx: nat, fact: string)
    requires t.factText == s.factText && t.saved == Some(idx)
    requires t.posts == s.posts[PostFileName(date) := BuildPostHtml(date, PostTitle(idx), fact)]
    requires t.index == Some(BuildIndex(AllPosts(t.posts.Keys)))
    requires t.writes == s.writes + [StateSaved(idx)] + [PostWritten(PostFileName(date))] + [IndexWritten]
    ensures t == Publish(s, date, idx, fact)
  {
  }

  /** os.listdir(POSTS_DIR): every name in the posts directory once, in an
      order the model leaves open. */
  method ListDir(dir: map<string, string>) returns (names: seq<string>)
    ensures multiset(names) == multiset(dir.Keys)
  {
    names := [];
    var left := dir.Keys;
    while left != {}
      invariant left <= dir.Keys
      invariant multiset(names) + multiset(left) == multiset(dir.Keys)
      decreases left
    {
      var x :| x in left;
      assert multiset(left) == multiset(left - {x}) + multiset{x};
      names := names + [x];
      left := left - {x};
    }
  }

  /** all_posts: the posts directory listed newest first, one entry per
      ".html" file. */
  method ListPosts(dir: map<string, string>) returns (allPosts: seq<PostEntry>)
    ensures allPosts == AllPosts(dir.Keys)
  {
    var names := ListDir(dir);
    var sorted := SortDescending(names);
    allPosts := CollectPosts(sorted);
    SameListing(sorted, dir.Keys);
  }

  /** Sorting the names in whatever order os.listdir gave them yields the
      listing's order. */
  lemma SameListing(sorted: seq<string>, keys: set<string>)
    requires Descending(sorted) && multiset(sorted) == multiset(keys)
    ensures sorted == SortedDir(keys)
  {
    var r := SortedDir(keys);
    assert Descending(r) by {
      forall i, j | 0 <= i < j < |r| ensures !Below(r[i], r[j]) {
        BelowAsymmetric(r[j], r[i]);
      }
    }
    DescendingUnique(sorted, r);
  }
}
