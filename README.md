# AI Facts Daily: a Dafny model of the post generator

The generator (`scripts/generate_post.py`) publishes one short fact per day.
Each run does the following, in this order:

1. Reads the fact file and keeps its non-blank lines, stripped.
2. Reads the rotation state (`last_index`, `-1` when there is no state file).
3. Picks the next fact, `(last_index + 1) % len(facts)`, and saves the new state.
4. Writes `posts/<date>.html` with the fact's page.
5. Lists the posts directory newest first and rewrites `index.html` with one item per `.html` file.

The model keeps that structure, one module per concern:

- `Text` covers the Python string built-ins the script relies on: `str.strip()`, `str.splitlines()`, `str.endswith()`, `str.replace()` and `str()` of a number.
- `Order` covers Python's string ordering and `sorted(..., reverse=True)`.
- `Facts` covers `load_facts`.
- `Rotation` covers the rotation cursor.
- `Listing` covers post file names, titles and the listing loop that builds `all_posts`.
- `Pages` covers `build_post_html` and `build_index`, with the template text as written, unescaped.
- `Generator` covers `main`, with three parts:
  - the file system as an abstract `Store`: fact text, saved state, posts directory, index page, and a log of the writes in order;
  - `Step`/`RunAll`, the specification of one run and of a series of runs;
  - the class `Site`, whose method `Run` performs a run the way `main` does, field by field, and is proved to produce exactly `Step`'s store and outcome.

A run on an empty fact list ends in the modulo by zero at line 53. `main` raises `ZeroDivisionError` there, before anything is written. The model returns the outcome `ZeroDivision` and leaves the store unchanged.

The repository holds a second, longer copy of the script, `.github/workflows/scripts/generate_post.py`. It is not modelled, and it behaves differently from `scripts/generate_post.py`:

- **Escaping.** The other copy passes the title and the fact through `html.escape` (its lines 57-58). `scripts/generate_post.py` pastes them in as they are: `html` is imported but never used. `Pages.PostPageEmbeds` states that the fact appears verbatim.
- **Empty fact list.** The other copy stops with `SystemExit("facts.txt is empty")` before it loads the state (its lines 109-110). In `scripts/generate_post.py`, an empty fact list fails with the `ZeroDivisionError` above.
- **Date on the post page.** The other copy prints the date on the post page (its line 69). `build_post_html` here ignores its date parameter (`Pages.PostPageIgnoresDate`).
- **Affiliate link.** In the other copy, the link carries `rel="sponsored nofollow noopener"`, and the index page links to it too (its lines 72 and 93). Here the link has only `target="_blank"`, and the index page has the disclosure but no affiliate link.
- **Index labels.** The other copy labels an entry `AI Fact (<date>)` and joins the items with newlines (its lines 81-84 and 131). Here the label is `AI Fact <date>` and the items are joined with nothing.

## Model

| member | source | states |
|---|---|---|
| Text.Strip | scripts/generate_post.py:28 | `ln.strip()`: the result has no whitespace at either end, is empty exactly when the line is all whitespace, is the slice after the leading whitespace, and everything outside it is whitespace |
| Text.StripCharacterization | scripts/generate_post.py:28 | whatever sits between a whitespace prefix and a whitespace suffix, with no whitespace at its own ends, is exactly what strip returns |
| Text.StripIdempotent | scripts/generate_post.py:28 | stripping twice equals stripping once |
| Text.SplitLines | scripts/generate_post.py:28 | `str.splitlines()`: the text is cut at each boundary character, with `"\r\n"` counted as one boundary and no empty line after a final boundary; its properties are the `SplitLines*` lemmas below |
| Text.SplitLinesNoBreaks | scripts/generate_post.py:28 | no line produced by `splitlines()` contains a line boundary |
| Text.SplitLinesAtBreak | scripts/generate_post.py:28 | the text before the first boundary is the first line, and splitting continues right after that boundary |
| Text.SplitLinesAtCrLf | scripts/generate_post.py:28 | a `"\r\n"` pair is consumed as one boundary |
| Text.SplitLinesSingle | scripts/generate_post.py:28 | a non-empty text without boundaries is a single line |
| Text.EndsWith | scripts/generate_post.py:64 | `fn.endswith(suffix)`: the suffix is no longer than the name and equals the name's last characters |
| Text.Replace | scripts/generate_post.py:65 | `str.replace(pat, rep)` for a non-empty pattern: scanning left to right, each occurrence is replaced and the scan resumes after it, so occurrences do not overlap; its partners are `Text.ReplaceAbsent` and `Listing.FileNameRoundTrip` |
| Text.ReplaceAbsent | scripts/generate_post.py:65 | `replace` of a pattern that does not occur returns the text unchanged |
| Text.Decimal | scripts/generate_post.py:58 | `str(n)` for n ≥ 0: a non-empty string of digits, with a leading zero only for 0; `Text.DecimalRoundTrip` reads it back |
| Text.DecimalRoundTrip | scripts/generate_post.py:58 | `str(n)` is read back as `n`: the decimal writing is exact |
| Facts.Normalize | scripts/generate_post.py:28 | `[ln.strip() for ln in lines if ln.strip()]`: at most one fact per line, each non-empty and stripped at both ends; `Facts.NormalizeSelects` and `Facts.NormalizeFixpoint` characterise it |
| Facts.LoadFacts | scripts/generate_post.py:27-28 | every loaded fact is non-empty, has no whitespace at either end and contains no line break |
| Facts.LoadedFactsAreStripped | scripts/generate_post.py:28 | each loaded fact is its own `strip()` |
| Facts.NormalizeSelects | scripts/generate_post.py:28 | a line contributes its stripped text, in place between the facts of the lines before and after it, exactly when it is not all whitespace |
| Facts.NormalizeAppend | scripts/generate_post.py:28 | the comprehension works line by line: the facts of a concatenation are the facts of its parts, in order |
| Facts.NormalizeFixpoint | scripts/generate_post.py:28 | a list is left unchanged exactly when every entry is non-empty and stripped |
| Facts.NormalizeIdempotent | scripts/generate_post.py:28 | normalising twice equals normalising once |
| Generator.LastIndex | scripts/generate_post.py:19-22 | `load_state()["last_index"]`: the saved value, or -1 when there is no state file |
| Rotation.NextIndex | scripts/generate_post.py:53 | the new index lies in `[0, n)` and is congruent to `last_index + 1` modulo `n`, for any saved integer |
| Rotation.NextIndexWraps | scripts/generate_post.py:53 | from inside the list the cursor moves to the next position, and from the last position back to 0 |
| Rotation.AfterRuns | scripts/generate_post.py:52-55 | after k runs the saved index is `(last + k) % n` |
| Rotation.FreshStartPicks | scripts/generate_post.py:19-22 | with no state file (`last_index` = -1), run k (counting from 0) picks index `k % n`; the first run picks 0 |
| Rotation.FreshStartVisitsAll | scripts/generate_post.py:19-22 | the first n runs from a fresh start visit indexes 0, 1, …, n-1 in order |
| Rotation.Periodic | scripts/generate_post.py:53-54 | once a run has happened, the cursor repeats with period n |
| Order.Below | scripts/generate_post.py:63 | Python's `<` on strings: code point by code point, a proper prefix before any longer string; `Order.BelowTotal` and `Order.BelowTransitive` make it a strict total order |
| Order.BelowTotal | scripts/generate_post.py:63 | any two different names are ordered one way or the other |
| Order.BelowTransitive | scripts/generate_post.py:63 | string order is transitive |
| Order.BelowSameLengthAppend | scripts/generate_post.py:59 | for dates of one width, adding ".html" keeps their order |
| Order.Insert | scripts/generate_post.py:63 | inserting into a descending list keeps it descending and adds exactly that element (multiset) |
| Order.SortDescending | scripts/generate_post.py:63 | `sorted(..., reverse=True)` returns a descending permutation of its input |
| Order.DescendingUnique | scripts/generate_post.py:63 | two descending arrangements of the same names are equal, so the order `os.listdir` returns does not matter |
| Listing.PostTitle | scripts/generate_post.py:58 | `f"AI Fact #{idx+1}"`: the prefix then `Text.Decimal(idx + 1)` |
| Listing.PostFileName | scripts/generate_post.py:59 | `f"{date_str}.html"`: the date followed by ".html" |
| Listing.PostTitleNumber | scripts/generate_post.py:58 | the title is "AI Fact #" followed by the unpadded decimal `idx + 1` |
| Listing.PostTitleInjective | scripts/generate_post.py:58 | different fact indexes get different titles |
| Listing.FileNameRoundTrip | scripts/generate_post.py:59-65 | for a date without ".html" in it, `replace(".html", "")` on the post's file name gives back the date |
| Listing.DateOf | scripts/generate_post.py:65 | `fn.replace(".html", "")`: the name with every ".html" removed |
| Listing.EntryFor | scripts/generate_post.py:65-66 | the tuple appended for a name: its date, the name, and the label "AI Fact " + date |
| Listing.Entries | scripts/generate_post.py:63-66 | what the loop has appended after going through a list of names: one `EntryFor` per name ending in ".html", in list order (`Listing.EntriesOfHtmlNames`) |
| Listing.HtmlNames | scripts/generate_post.py:64 | the names kept are exactly those that end in ".html" |
| Listing.EntriesOfHtmlNames | scripts/generate_post.py:62-66 | the loop appends one entry per kept name, in order, each derived from its name |
| Listing.CollectPosts | scripts/generate_post.py:62-66 | the `all_posts` loop, with loop invariant `allPosts == Entries(sorted[..i])`, ends with the entries of all sorted names |
| Listing.SortedDir | scripts/generate_post.py:63 | the directory's names, each once, strictly descending |
| Listing.ListingExact | scripts/generate_post.py:62-66 | one entry per ".html" name in the directory and no other, each derived from its name, names strictly descending |
| Listing.ListingNewestFirst | scripts/generate_post.py:63 | later entries have smaller file names |
| Listing.ListingHasPost | scripts/generate_post.py:59-66 | a post written for a date is listed under that date |
| Pages.BuildPostHtml | scripts/generate_post.py:37-42 | `build_post_html`: the fixed template text with the title, the title again and the fact pasted in, unescaped; `Pages.PostPageEmbeds` locates them |
| Pages.PostPageEmbeds | scripts/generate_post.py:37-42 | the post page contains the title twice and the fact verbatim, at offsets fixed by the title's length |
| Pages.PostPageIgnoresDate | scripts/generate_post.py:37-42 | the post page does not depend on the date argument |
| Pages.PostPageDeterminesFact | scripts/generate_post.py:37-42 | two pages with the same title are equal only if their facts are equal |
| Pages.ItemHtml | scripts/generate_post.py:45 | one list item: `<li><a href='posts/` + file + `'>` + date + ` — ` + label + `</a></li>` |
| Pages.Items | scripts/generate_post.py:45 | the items of the entries joined with no separator, in list order (`Pages.ItemsAppend`) |
| Pages.BuildIndex | scripts/generate_post.py:44-47 | `build_index`: the fixed head, the items, the fixed tail (`Pages.IndexLayout`) |
| Pages.IndexLayout | scripts/generate_post.py:46-47 | the index page is the fixed head, then the items, then the fixed tail |
| Pages.IndexDeterminesItems | scripts/generate_post.py:46-47 | equal index pages have equal item lists |
| Pages.ItemsAppend | scripts/generate_post.py:45 | the `"".join` of items is the items of each part, in order |
| Pages.OneItemPerEntry | scripts/generate_post.py:45 | with no '<' in any entry's fields, the items hold exactly one `<li>` per entry |
| Generator.Publish | scripts/generate_post.py:54-67 | the store after a run that picked its index: the state saved as the index, the day's post written, then the index page rebuilt from the whole directory, with the three writes logged in that order |
| Generator.StepOn | scripts/generate_post.py:49-67 | one run of `main` on the loaded facts: with none, the outcome `ZeroDivision` and the store unchanged; otherwise `Publish` of the fact at `NextIndex(last_index, n)` |
| Generator.Step | scripts/generate_post.py:49-67 | one run of `main`: `StepOn` with the facts loaded from the store's fact text |
| Generator.StepFailsOnlyWithoutFacts | scripts/generate_post.py:51-53 | a run fails exactly when there are no facts, and then the store is unchanged: no state, post or index written |
| Generator.StepPicksNext | scripts/generate_post.py:52-55 | with facts, a run picks `NextIndex(last_index, n)`, inside the list, and publishes the fact at that index |
| Generator.PublishSavesFirst | scripts/generate_post.py:54-55 | the state is saved with the new index before the post and then the index are written; the fact file is untouched |
| Generator.PublishWritesPost | scripts/generate_post.py:57-60 | the day's post file exists and holds the fact, no other file is added, and every other post is unchanged |
| Generator.PublishListsPost | scripts/generate_post.py:59-67 | the index written is built from the listing of the posts directory after the write, and that listing holds the day's post |
| Generator.SameDateAdvances | scripts/generate_post.py:52-60 | a second run on the same date publishes the next fact, a different one when there are at least two |
| Generator.PublishSameDateTwice | scripts/generate_post.py:59-60 | re-running on a date overwrites that date's post file and adds no file |
| Generator.RunAll | scripts/generate_post.py:49-67 | a series of runs, one per date, each reloading the facts; the store after the last run and one outcome per run |
| Generator.RunOn | scripts/generate_post.py:49-67 | the same series, each run given the same facts (`Generator.RunAllLoadsSameFacts` ties it to `RunAll`) |
| Generator.RunOnKeepsFactFile | scripts/generate_post.py:49-67 | no run writes the fact file; each run yields one outcome |
| Generator.RunAllLoadsSameFacts | scripts/generate_post.py:51 | every run of a series loads the same facts as the first |
| Generator.RunOnCursor | scripts/generate_post.py:52-55 | after the runs the saved cursor has advanced once per run |
| Generator.RunOnRotates | scripts/generate_post.py:52-55 | run k publishes index `LastIndexAfter(last, n, k + 1)`, and the final cursor has moved once per date |
| Generator.FreshRunsCycle | scripts/generate_post.py:19-22 | from no saved state, run k publishes fact `k % n`, whatever the dates |
| Generator.NoFactsNoChange | scripts/generate_post.py:51-53 | with no facts, every run fails and the store never changes |
| Generator.RunOnPosts | scripts/generate_post.py:59-60 | the runs add one post file per date and remove none |
| Generator.LastRunWritesIndex | scripts/generate_post.py:67 | the index after the runs is the one built from the final posts directory |
| Generator.IndexAfterRuns | scripts/generate_post.py:57-67 | after runs on ISO dates into an empty directory, the index lists each distinct date once, newest first, as (date, date + ".html", "AI Fact " + date), and nothing else |
| Generator.IndexItemsCountDates | scripts/generate_post.py:45-47 | after those runs, the items of the index page hold exactly one `<li>` per distinct date |
| Generator.ListingOfDates | scripts/generate_post.py:62-66 | the listing of a directory of posts for ISO dates has one entry per distinct date, newest first |
| Generator.TwoFactsLoad | scripts/generate_post.py:27-28 | the fact file "A\nB" loads as the facts "A" and "B" |
| Generator.TwoFactsAlternate | scripts/generate_post.py:52-55 | from a fresh start with facts "A" and "B", the runs publish facts 0, 1, 0, 1, … |
| Generator.Site.Run | scripts/generate_post.py:49-67 | `main`: the new files and state, and the outcome, are exactly those of one `Step` from the old ones |
| Generator.Site.SaveState | scripts/generate_post.py:24-25 | `save_state`: the state file now holds the index; nothing else changes but the write log |
| Generator.Site.WritePost | scripts/generate_post.py:60 | the post file now holds the page; nothing else changes but the write log |
| Generator.Site.WriteIndex | scripts/generate_post.py:67 | `index.html` now holds the page; nothing else changes but the write log |
| Generator.ListDir | scripts/generate_post.py:63 | `os.listdir`: every name in the directory once, in some order |
| Generator.ListPosts | scripts/generate_post.py:62-66 | the list `all_posts` built from the directory is the listing `AllPosts` of its names |
| Generator.SameListing | scripts/generate_post.py:63 | sorting the names in any order they were read in gives the listing's order |

## Left out

- File I/O, paths and `ensure_dirs` (lines 3-8, 30-32). The files are the fields of `Store`; creating directories has no counterpart.
- `today_slug` (lines 34-35). The date is a parameter of every run. `Listing.IsIsoDate` states its `YYYY-MM-DD` shape where a lemma needs it.
- JSON reading and writing of the state file (lines 19-25). The saved state is `Option<int>`, and the state file's other possible contents are not modelled:
  - malformed JSON raises at line 21;
  - a missing `last_index` key raises `KeyError` at line 53;
  - a string, `null` or list value raises `TypeError` at line 53;
  - a float passes line 53 and is saved as the new state at line 55, then raises `TypeError` at line 60 (`facts[idx]`), so every later run fails the same way;
  - a boolean counts as 0 or 1, and the run publishes normally.
- Write failures (`OSError`) and concurrent runs are not modelled.
- Read failures are not modelled. A missing `data/facts.txt` raises `FileNotFoundError` at line 28, before anything is written. `Store.factText` always holds some text, so the model cannot express that case.
- Text encoding. The two writes (lines 60 and 67) pass `encoding="utf-8"`. The reads of the fact file (line 28) and of the state file (line 21) use the platform's default encoding. Strings are sequences of characters, and no bytes or decoding are modelled.
- `read_text`'s universal-newline translation. `splitlines` is applied to the raw text, which treats `"\r\n"` and a lone `"\r"` as boundaries just as the translated text does. That the two give the same lines is not proved.
- `Text.Replace` requires a non-empty pattern. The code only ever replaces ".html", and Python's behaviour for an empty pattern is not modelled.
- `Pages.OneItemPerEntry` counts `<li>` in the items, not in the whole index page. The fixed template text around the items is not shown to be free of `<li>`. The lemma assumes no entry field contains '<', because nothing is escaped. `Generator.IndexItemsCountDates` discharges that assumption for the index the runs build from ISO dates.
- Facts.LoadFacts: its contract states that facts are non-empty, stripped at both ends and free of line breaks. The equation `strip(fact) == fact` is the separate lemma `Facts.LoadedFactsAreStripped`.
