# rss_proxy feed pipeline, modelled in Dafny

This project models the core of `feed_extraction.py`, the script that turns RSS
feeds into chat-webhook messages. It covers three stages and the table behind the last one:

- **Post construction** (`make_posts`). The entries of all feeds are gathered in feed
  order. Entries whose `published` field is missing or empty are dropped. Each
  remaining date is parsed, and the entries inside the inclusive window
  `[from, to]` are kept. Each kept entry becomes a post `{title, title_link}`
  with its link resolved through the redirect follower. The list is then
  deduplicated on `title_link`, keeping first occurrences.
- **Ignore filters.** A post is dropped when its title holds an ignore word as a
  case-sensitive substring. It is also dropped when the network location of its
  link, resolved again, exactly equals an ignored domain.
- **Dispatch** (`exec_request_slack`). Posts are handled in order. A post is
  skipped if it is ignored or its link is already in the `Rss` table.
  Otherwise the dispatcher sleeps `SLACK_POST_WAIT` (3) seconds, POSTs
  `{text, attachments: [post], link_names: 1}` to the webhook, and inserts the
  link into the table only on status 200.
- **The `Rss` table.** It has a unique `url` column and only grows.

The modules are `Strings` (Python's `in` on text), `Web` (the fail-open
resolver and `urlsplit(...).netloc`), `IgnoreFilter`, `Posts` (selection,
dedup and `MakePosts`) and `Delivery` (the table as class `RssTable`, the
dispatcher `ExecRequestSlack`, `PostToSlack`, and lemmas about a run).

The outside world enters as parameters:

- `head: string -> HeadReply` is the HEAD request with redirects followed:
  either `Raised`, or `Reached(finalUrl)`.
- `parse: string -> Option<int>` is date parsing plus conversion to JST, as
  seconds. `None` means the parser raised.
- `respond: nat -> int` gives the webhook's status code for the k-th request
  of the run.
- What the dispatcher does to the world is returned as a trace of
  `Wait(seconds)` and `Send(webhook, payload, status)` effects.

The dispatcher is specified by the function `Delivery.Run`, one `Step` per
post. `ExecRequestSlack` is proved to produce exactly `Run`'s trace and table.
The properties are proved about `Run`.

Three behaviours of the code worth knowing (the model follows the code):

- A webhook request that raises a transport error is not caught. The run ends
  there rather than moving on to the next post. The model has status codes
  only (see Left out).
- Inserting a link a second time would raise the unique-constraint error, not
  be a no-op. `RssTable.Save` reports such an insert as refused and leaves the
  table unchanged. `ExecRequestSlack` proves that it never attempts one.
- The domain filter resolves `title_link` again, though `make_posts` has
  already resolved it. The model applies the resolver to the stored link, as
  the code does.

## Model

| member | source | states |
|---|---|---|
| Strings.Contains | feed_extraction.py:98 | `word in title` holds exactly when the word occurs at some position of the title (case-sensitive; the empty word occurs everywhere) |
| Strings.EmptyWordOccurs | feed_extraction.py:98 | an empty ignore word is contained in every title |
| Web.RedirectedUrl | feed_extraction.py:190-201 | the resolver returns the final URL when the HEAD request answered with a non-empty one, and the original URL when it raised or gave an empty one; it never fails |
| Web.NetLoc | feed_extraction.py:103 | the network location holds no '/', '?' or '#' and is a piece of the URL |
| Web.NetLocOfUrl | feed_extraction.py:103 | for `scheme://host` followed by a path, query, fragment or nothing, the network location is exactly `host` |
| IgnoreFilter.TitleContainsIgnoreWords | feed_extraction.py:97-98 | true exactly when some ignore word occurs in the title; false for an empty word list |
| IgnoreFilter.NetLocListed | feed_extraction.py:103 | true exactly when some listed domain is equal to the network location |
| IgnoreFilter.UrlContainsIgnoreDomains | feed_extraction.py:101-103 | true exactly when the network location of the resolved link equals a listed domain |
| IgnoreFilter.NoIgnoreWordsIgnoresNothing | feed_extraction.py:97-98 | with no ignore words no title is ignored |
| IgnoreFilter.MissingCharExcludes | feed_extraction.py:98 | a word holding a character the title lacks does not occur in it |
| IgnoreFilter.TitleFilterIgnoresExamples | test_feed_extraction.py:25-28 | the two titles with "ニッカンスポーツ" or "F1" are ignored |
| IgnoreFilter.TitleFilterKeepsOricon | test_feed_extraction.py:29 | the Oricon title is kept |
| IgnoreFilter.TitleFilterKeepsMainichi | test_feed_extraction.py:30 | the Mainichi title is kept |
| IgnoreFilter.TitleKeptIfCharsMissing | test_feed_extraction.py:29-30 | a title lacking a character of each test word is kept |
| IgnoreFilter.DomainFilterIsExactHost | feed_extraction.py:101-103 | for a link the resolver leaves unchanged (the HEAD request raised, named no final URL, or ended at the link itself), the domain filter fires exactly when the link's host is listed; neither parent domains nor subdomains count |
| IgnoreFilter.DomainFilterIgnoresF1Gate | tests/test_feed_extraction.py:31-32 | `https://f1-gate.com/...` is ignored with "f1-gate.com" listed |
| IgnoreFilter.DomainFilterIgnoresNikkansports | tests/test_feed_extraction.py:31-33 | `https://www.nikkansports.com/...` is ignored with "www.nikkansports.com" listed |
| IgnoreFilter.DomainFilterKeepsUnlistedSubdomain | feed_extraction.py:103 | a subdomain of a listed domain is not ignored |
| Posts.Flatten | feed_extraction.py:148-149 | an entry is gathered exactly when it belongs to one of the feeds |
| Posts.HasDate | feed_extraction.py:149 | `dig(entry, 'published')` is falsy exactly when the field is absent or the empty string |
| Posts.Dated | feed_extraction.py:148-149 | the gathered entries all have a non-empty `published` field and come from the input |
| Posts.DatedAppend | feed_extraction.py:148-149 | filtering the undated entries feed by feed and concatenating keeps feed order |
| Posts.ToPost | feed_extraction.py:159-163 | a post keeps the entry's title; its link is the entry's link, or the final URL the HEAD request reached |
| Posts.Contribution | feed_extraction.py:151-163 | one entry fails exactly when it is dated and its date does not parse, with that date in the error; otherwise it adds its post exactly when it lies in the window, and nothing else |
| Posts.Selected | feed_extraction.py:151-163 | the window loop yields at most one post per entry; a failure names a dated entry of the input whose date does not parse |
| Posts.JoinAssociative | feed_extraction.py:151-163 | combining partial selections is associative |
| Posts.SelectedAppend | feed_extraction.py:148-163 | the selection of concatenated feeds is the selection of the first followed by that of the second; the earliest bad date decides the error |
| Posts.SelectedDated | feed_extraction.py:148-163 | dropping undated entries before the window loop does not change the selection |
| Posts.UndatedNeverContributes | feed_extraction.py:149 | an entry without a publish date never contributes, wherever it stands |
| Posts.SelectedFailsOnFirstMalformed | feed_extraction.py:152-154 | make_posts fails exactly when some dated entry's date does not parse, reporting the first such entry |
| Posts.SelectedMembers | feed_extraction.py:151-163 | a post is selected exactly when some dated entry with `from <= date <= to` (both ends included) turns into it, title and resolved link |
| Posts.Links | feed_extraction.py:167 | the link list has one entry per post, its `title_link` |
| Posts.Dedup | feed_extraction.py:165-169 | deduplication never lengthens the list |
| Posts.FirstOccurrences | feed_extraction.py:168 | the kept positions are increasing and are exactly the positions no earlier post shares a link with |
| Posts.DedupKeepsFirstOccurrences | feed_extraction.py:165-169 | the result is the input at exactly the first-occurrence positions, in order: an order-preserving subsequence |
| Posts.DedupDistinct | feed_extraction.py:165-169 | the result's links are pairwise distinct |
| Posts.FirstWithLink | feed_extraction.py:168 | every post has an earliest post carrying its link |
| Posts.DedupCoversLinks | feed_extraction.py:165-169 | every input link appears in the result, carried by its first occurrence |
| Posts.DedupOfDistinct | feed_extraction.py:165-169 | a list with distinct links passes unchanged |
| Posts.DedupIdempotent | feed_extraction.py:165-169 | deduplicating twice is deduplicating once |
| Posts.MakePosts | feed_extraction.py:135-169 | the feed and entry loops yield the deduplicated selection of the concatenated feeds, or the date error that ends the run |
| Delivery.IgnoredMeans | feed_extraction.py:116-120 | a post is skipped by the filters exactly when some ignore word occurs in its title or the network location of its resolved link is a listed domain |
| Delivery.StepSkipsOrSends | feed_extraction.py:114-131 | one turn changes nothing exactly when the post is ignored or its link is recorded; otherwise it appends one wait and one request, counts the request, keeps every row and records the link exactly on status 200 |
| Delivery.RunExtends | feed_extraction.py:114-131 | a run only appends to the trace, makes one wait per request and keeps every row already stored |
| Delivery.RunAppend | feed_extraction.py:114-132 | dispatching `a + b` is dispatching `a`, then `b` from where `a` left off |
| Delivery.SkippedPostIsSilent | feed_extraction.py:114-122 | an ignored post, or one whose link is already recorded when its turn comes, causes no wait, no request and no record |
| Delivery.RunPacing | feed_extraction.py:121-129 | every request comes right after a 3-second wait, every wait right before a request, one of each per request |
| Delivery.RunSendsOnlyFresh | feed_extraction.py:114-129 | every request carries one input post with the configured text, webhook and `link_names` 1; that post is not ignored and its link was not recorded when the run began |
| Delivery.RunKeepsRows | feed_extraction.py:36-40 | the table only grows: rows present before are kept unchanged |
| Delivery.RunRecords | feed_extraction.py:130-131 | the links added are exactly those of requests answered 200, each with its post's title |
| Delivery.RunDeliversOnce | feed_extraction.py:121-131 | after an accepted request for a link, no later request in the run carries that link |
| Delivery.RunCoversPosts | feed_extraction.py:114-131 | every post not ignored ends the run recorded, or was sent and refused |
| Delivery.RerunNeverRedelivers | feed_extraction.py:121-131 | a second run on the same posts, with its own resolver replies and status codes, never sends a link the first run delivered or the table holds |
| Delivery.RerunSendsOnlyRefused | feed_extraction.py:121-131 | when every post the second run keeps was kept by the first, the second run sends only links that the first run sent and got refused for |
| Delivery.RerunAfterSuccessIsSilent | feed_extraction.py:121-131 | when every request of a run was accepted and every post the second run keeps was kept by the first, a second run on the same posts sends nothing and records nothing |
| Delivery.DuplicateAndIgnoredExample | feed_extraction.py:114-169 | two posts with the same resolved link plus one with an ignored title lead to exactly one request and one new row |
| Delivery.RssTable.constructor | feed_extraction.py:36-40 | a table holds the given rows |
| Delivery.RssTable.Has | feed_extraction.py:122 | the lookup finds a row exactly when the link is recorded |
| Delivery.RssTable.Save | feed_extraction.py:131 | an insert into the table, whose `url` column is unique (line 38), succeeds exactly when the link is new, and then adds that one row; otherwise the table is unchanged |
| Delivery.ExecRequestSlack | feed_extraction.py:106-132 | the loop produces exactly the effects and the table of `Run`; an assertion in the loop shows every insert it makes is accepted by the unique constraint |
| Delivery.PostToSlack | feed_extraction.py:82-94 | a date error stops the run before any request or record; otherwise the deduplicated posts are dispatched |

## Left out

- Configuration loading (`load_config`), proxy setup (`proxy_auth`, `build_opener`, `install_opener`), `main` and the command line. The command line only parses `--to-date` when `--from-date` is given. The window bounds are plain parameters here.
- `yesterday` reads the wall clock. The window bounds are parameters instead.
- `text_of_article` is HTML scraping that nothing calls.
- Feed fetching with `feedparser` is left out. The feeds come in as sequences of entries. An entry without `title` or `link` would raise a KeyError; the model's entries always have both.
- Date parsing and time zones are an oracle returning JST seconds. Naive datetimes (local-time interpretation) are not modelled.
- HEAD requests are the `head` oracle. The model assumes the same URL always gets the same reply within a run. Each run gets its own oracle, since the program resolves links afresh every run.
- RerunSendsOnlyRefused, RerunAfterSuccessIsSilent: these assume that every post the second run keeps was also kept by the first. A resolver that answers differently between runs can make a post the first run ignored by domain get sent in the second. RerunNeverRedelivers holds without that assumption.
- A webhook request that raises (connection error, timeout) ends the real run, because the exception is not caught. The model only has status codes, so every request returns one.
- `urlsplit` is modelled for the network location only, following the Python 3.9+ rules: scheme detection and a netloc after "//" ending at '/', '?' or '#'. The removal of leading control characters, tabs and newlines is not modelled. Neither is the ValueError raised for unbalanced IPv6 brackets. Neither is the ValueError raised for a non-ASCII network location that NFKC normalisation turns into one holding '/', '?', '#', '@' or ':' (fullwidth '：' or '／', for instance).
- The `time.sleep` itself is not modelled. It is recorded as a `Wait(3)` effect.
- Logging with `print` is left out.
- SQLite persistence is reduced to a map from URL to title. The connection lifecycle is left out, and so is the `created_date` column (clock).
- Concurrent runs are not modelled; the script does no locking around the table.
- `fallback_text` is formatted from the window with `strftime` in `post_to_slack`. The model takes it as a setting.
