/** Delivering the posts of one run to the chat webhook (exec_request_slack):
    skip ignored posts and posts whose link the Rss table already holds, wait
    before every request, and record the link only when the webhook answers 200. */
module Delivery {

  import opened Wrappers
  import opened Web
  import opened IgnoreFilter
  import opened Posts
  import opened Strings

  /** Seconds slept before every webhook request (SLACK_POST_WAIT). */
  const SlackPostWait: nat := 3

  /** The only status code that counts as a delivery. */
  const StatusOk: int := 200

  /** The JSON body of a webhook request: {text, attachments, link_names}. */
  datatype Payload = Payload(text: string, attachments: seq<Post>, linkNames: int)

  /** What the dispatcher does to the outside world, in order: sleep, or POST a
      payload to the webhook and get a status code back. */
  datatype Effect = Wait(seconds: nat) | Send(webhookUrl: string, payload: Payload, status: int)

  /** The webhook's status code for the k-th request of the run (k from 0). */
  type StatusOracle = nat -> int

  /** What the dispatcher reads from the configuration and the date window. */
  datatype Settings = Settings(ignoreDomains: seq<string>, ignoreWords: seq<string>, fallbackText: string, webhookUrl: string)

  /** The body sent for one post. */
  function PayloadFor(s: Settings, p: Post): Payload {
    Payload(s.fallbackText, [p], 1)
  }

  /** The post is dropped by either ignore filter. */
  predicate Ignored(head: HeadOracle, s: Settings, p: Post): (r: bool)
  {
    TitleContainsIgnoreWords(p.title, s.ignoreWords) || UrlContainsIgnoreDomains(head, p.titleLink, s.ignoreDomains)
  }

  /** The effect is a request carrying the post with link `url`. */
  predicate Sends(e: Effect, url: string) {
    e.Send? && |e.payload.attachments| == 1 && e.payload.attachments[0].titleLink == url
  }

  /** The effect is a request carrying the post with link `url` that the webhook accepted. */
  predicate Delivers(e: Effect, url: string) {
    Sends(e, url) && e.status == StatusOk
  }

  // ---------------------------------------------------------------------
  // The dispatcher as a function of its inputs

  /** Dispatch so far: the effects, the Rss table (url to title) and the number of requests made. */
  datatype Progress = Progress(trace: seq<Effect>, rows: map<string, string>, sends: nat)

  /** The state before the first post: nothing done, the table as stored. */
  function Start(rows: map<string, string>): Progress {
    Progress([], rows, 0)
  }

  /** One turn of the loop for post `p`. */
  function Step(head: HeadOracle, respond: StatusOracle, s: Settings, p: Post, g: Progress): (r: Progress)
  {
    if Ignored(head, s, p) || p.titleLink in g.rows then g
    else
      var status := respond(g.sends);
      Progress(g.trace + [Wait(SlackPostWait), Send(s.webhookUrl, PayloadFor(s, p), status)],
               if status == StatusOk then g.rows[p.titleLink := p.title] else g.rows,
               g.sends + 1)
  }

  /** The loop over `posts`, one turn per post in order, from `g`. */
  function Run(head: HeadOracle, respond: StatusOracle, s: Settings, posts: seq<Post>, g: Progress): (r: Progress)
  {
    if posts == [] then g
    else Step(head, respond, s, posts[|posts| - 1], Run(head, respond, s, posts[..|posts| - 1], g))
  }

  /** One more turn of the loop. */
  lemma RunSnoc(head: HeadOracle, respond: StatusOracle, s: Settings, posts: seq<Post>, i: nat, g: Progress)
    requires i < |posts|
    ensures Run(head, respond, s, posts[..i + 1], g) == Step(head, respond, s, posts[i], Run(head, respond, s, posts[..i], g))
  {
    assert posts[..i + 1][..i] == posts[..i];
  }

  /** A post is ignored exactly when some ignore word occurs in its title, or
      the network location of its link, resolved again, is a listed domain. */
  lemma IgnoredMeans(head: HeadOracle, s: Settings, p: Post)
    ensures Ignored(head, s, p) <==>
      (exists i, k :: 0 <= i < |s.ignoreWords| && OccursAt(p.title, s.ignoreWords[i], k)) ||
      NetLoc(RedirectedUrl(head, p.titleLink)) in s.ignoreDomains
  {
    var netloc := NetLoc(RedirectedUrl(head, p.titleLink));
    if netloc in s.ignoreDomains {
      var i :| 0 <= i < |s.ignoreDomains| && s.ignoreDomains[i] == netloc;
    }
  }

  /** One turn either leaves everything as it was, exactly when the post is
      ignored or its link is already recorded, or appends one wait and one
      request to the trace, counts the request, keeps every stored row, and
      records the link exactly when the webhook answered 200. */
  lemma StepSkipsOrSends(head: HeadOracle, respond: StatusOracle, s: Settings, p: Post, g: Progress)
    ensures var r := Step(head, respond, s, p, g);
      (r == g <==> Ignored(head, s, p) || p.titleLink in g.rows) &&
      (r != g ==>
        r.sends == g.sends + 1 && |r.trace| == |g.trace| + 2 && r.trace[..|g.trace|] == g.trace &&
        (forall u :: u in g.rows ==> u in r.rows && r.rows[u] == g.rows[u]) &&
        (p.titleLink in r.rows <==> respond(g.sends) == StatusOk))
  {
    var r := Step(head, respond, s, p, g);
    if !(Ignored(head, s, p) || p.titleLink in g.rows) {
      assert |r.trace| != |g.trace|;
    }
  }

  /** A run only adds: the effects so far stay a prefix of the trace, each
      request comes with exactly one wait, and every row already in the table
      is kept unchanged. */
  lemma {:induction false} RunExtends(head: HeadOracle, respond: StatusOracle, s: Settings, posts: seq<Post>, g: Progress)
    ensures var r := Run(head, respond, s, posts, g);
      g.trace <= r.trace && g.sends <= r.sends && |r.trace| == |g.trace| + 2 * (r.sends - g.sends) &&
      forall u :: u in g.rows ==> u in r.rows && r.rows[u] == g.rows[u]
  {
    if posts != [] {
      var n := |posts| - 1;
      var m := Run(head, respond, s, posts[..n], g);
      RunExtends(head, respond, s, posts[..n], g);
      StepSkipsOrSends(head, respond, s, posts[n], m);
    }
  }

  /** Running over `a + b` is running over `a`, then over `b`. */
  lemma {:induction false} RunAppend(head: HeadOracle, respond: StatusOracle, s: Settings, a: seq<Post>, b: seq<Post>, g: Progress)
    ensures Run(head, respond, s, a + b, g) == Run(head, respond, s, b, Run(head, respond, s, a, g))
    decreases |b|
  {
    if b == [] {
      assert a + b == a;
    } else {
      var n := |b| - 1;
      assert (a + b)[..|a + b| - 1] == a + b[..n];
      assert (a + b)[|a + b| - 1] == b[n];
      RunAppend(head, respond, s, a, b[..n], g);
    }
  }

  /** A post that is ignored, or whose link is already recorded when its turn
      comes, causes no wait, no request and no record. */
  lemma SkippedPostIsSilent(head: HeadOracle, respond: StatusOracle, s: Settings, a: seq<Post>, p: Post, b: seq<Post>, g: Progress)
    requires Ignored(head, s, p) || p.titleLink in Run(head, respond, s, a, g).rows
    ensures Run(head, respond, s, a + [p] + b, g) == Run(head, respond, s, a + b, g)
  {
    RunAppend(head, respond, s, a + [p], b, g);
    RunAppend(head, respond, s, a, [p], g);
    RunAppend(head, respond, s, a, b, g);
    assert [p][..0] == [];
  }

  /** Pacing: every request comes right after a wait of SlackPostWait seconds,
      every wait comes right before a request, and there is one of each per
      request made. */
  lemma {:induction false} RunPacing(head: HeadOracle, respond: StatusOracle, s: Settings, posts: seq<Post>, rows: map<string, string>)
    ensures var g := Run(head, respond, s, posts, Start(rows));
      |g.trace| == 2 * g.sends &&
      (forall i :: 0 <= i < |g.trace| && g.trace[i].Send? ==> 0 < i && g.trace[i - 1] == Wait(SlackPostWait)) &&
      (forall i :: 0 <= i < |g.trace| && g.trace[i].Wait? ==> i + 1 < |g.trace| && g.trace[i + 1].Send?)
  {
    if posts != [] {
      var n := |posts| - 1;
      RunPacing(head, respond, s, posts[..n], rows);
      var g := Run(head, respond, s, posts[..n], Start(rows));
      var p := posts[n];
      if !(Ignored(head, s, p) || p.titleLink in g.rows) {
        var t := Run(head, respond, s, posts, Start(rows)).trace;
        assert t == g.trace + [Wait(SlackPostWait), Send(s.webhookUrl, PayloadFor(s, p), respond(g.sends))];
      }
    }
  }

  /** Every request carries one post of the input, with the configured text
      and webhook, a post that no filter ignores and whose link was not in the
      table when the run began. */
  lemma {:induction false} RunSendsOnlyFresh(head: HeadOracle, respond: StatusOracle, s: Settings, posts: seq<Post>, rows: map<string, string>)
    ensures forall e :: e in Run(head, respond, s, posts, Start(rows)).trace && e.Send? ==>
      e.webhookUrl == s.webhookUrl && e.payload.text == s.fallbackText && e.payload.linkNames == 1 &&
      |e.payload.attachments| == 1 && e.payload.attachments[0] in posts &&
      !Ignored(head, s, e.payload.attachments[0]) && e.payload.attachments[0].titleLink !in rows
  {
    if posts != [] {
      var n := |posts| - 1;
      RunSendsOnlyFresh(head, respond, s, posts[..n], rows);
      RunRecords(head, respond, s, posts[..n], rows);
      assert forall q :: q in posts[..n] ==> q in posts;
    }
  }

  /** The table only grows: stored rows are never changed or removed. */
  lemma {:induction false} RunKeepsRows(head: HeadOracle, respond: StatusOracle, s: Settings, posts: seq<Post>, rows: map<string, string>)
    ensures var g := Run(head, respond, s, posts, Start(rows));
      forall u :: u in rows ==> u in g.rows && g.rows[u] == rows[u]
  {
    if posts != [] {
      RunKeepsRows(head, respond, s, posts[..|posts| - 1], rows);
    }
  }

  /** The links the run adds to the table are exactly those of the accepted
      requests, each stored with the title of the post it carried. */
  lemma {:induction false} RunRecords(head: HeadOracle, respond: StatusOracle, s: Settings, posts: seq<Post>, rows: map<string, string>)
    ensures var g := Run(head, respond, s, posts, Start(rows));
      (forall u :: u in g.rows <==> u in rows || exists e :: e in g.trace && Delivers(e, u)) &&
      (forall u, e :: e in g.trace && Delivers(e, u) ==> u in g.rows && g.rows[u] == e.payload.attachments[0].title)
  {
    if posts != [] {
      var n := |posts| - 1;
      RunRecords(head, respond, s, posts[..n], rows);
      RunDeliversOnce(head, respond, s, posts[..n], rows);
      var g := Run(head, respond, s, posts[..n], Start(rows));
      var p := posts[n];
      var g' := Run(head, respond, s, posts, Start(rows));
      if !(Ignored(head, s, p) || p.titleLink in g.rows) {
        var e := Send(s.webhookUrl, PayloadFor(s, p), respond(g.sends));
        assert g'.trace == g.trace + [Wait(SlackPostWait), e];
        assert forall f :: f in g'.trace <==> f in g.trace || f == Wait(SlackPostWait) || f == e;
        if e.status == StatusOk {
          assert g'.rows == g.rows[p.titleLink := p.title];
          assert Delivers(e, p.titleLink);
          forall u, f | f in g.trace && Delivers(f, u) ensures u != p.titleLink {
          }
        } else {
          assert g'.rows == g.rows;
          assert forall u :: !Delivers(e, u);
        }
      }
    }
  }

  /** A link is delivered at most once: after an accepted request for a link,
      no later request carries that link. */
  lemma {:induction false} RunDeliversOnce(head: HeadOracle, respond: StatusOracle, s: Settings, posts: seq<Post>, rows: map<string, string>)
    ensures var t := Run(head, respond, s, posts, Start(rows)).trace;
      forall i, j, u :: 0 <= i < j < |t| && Delivers(t[i], u) ==> !Sends(t[j], u)
  {
    if posts != [] {
      var n := |posts| - 1;
      RunDeliversOnce(head, respond, s, posts[..n], rows);
      RunRecords(head, respond, s, posts[..n], rows);
      var g := Run(head, respond, s, posts[..n], Start(rows));
      var t := Run(head, respond, s, posts, Start(rows)).trace;
      forall i, j, u | 0 <= i < j < |t| && Delivers(t[i], u) ensures !Sends(t[j], u) {
        if j >= |g.trace| {
          assert t[i] in g.trace;
        }
      }
    }
  }

  /** Every post that no filter ignores ends the run recorded, or was sent and refused. */
  lemma {:induction false} RunCoversPosts(head: HeadOracle, respond: StatusOracle, s: Settings, posts: seq<Post>, rows: map<string, string>)
    ensures var g := Run(head, respond, s, posts, Start(rows));
      forall p :: p in posts && !Ignored(head, s, p) ==>
        p.titleLink in g.rows || exists e :: e in g.trace && Sends(e, p.titleLink) && e.status != StatusOk
  {
    if posts != [] {
      var n := |posts| - 1;
      RunCoversPosts(head, respond, s, posts[..n], rows);
      var g := Run(head, respond, s, posts[..n], Start(rows));
      var last := posts[n];
      var g' := Run(head, respond, s, posts, Start(rows));
      assert g' == Step(head, respond, s, last, g);
      StepSkipsOrSends(head, respond, s, last, g);
      assert posts == posts[..n] + [last];
      forall p | p in posts && !Ignored(head, s, p)
        ensures p.titleLink in g'.rows || exists e :: e in g'.trace && Sends(e, p.titleLink) && e.status != StatusOk
      {
        if p.titleLink in g.rows {
          assert p.titleLink in g'.rows;
        } else if p in posts[..n] {
          var e :| e in g.trace && Sends(e, p.titleLink) && e.status != StatusOk;
          assert e in g'.trace by {
            var k :| 0 <= k < |g.trace| && g.trace[k] == e;
            assert g'.trace[k] == e;
          }
        } else {
          assert p == last;
          var e := Send(s.webhookUrl, PayloadFor(s, last), respond(g.sends));
          assert g'.trace[|g.trace| + 1] == e;
          assert Sends(e, last.titleLink);
        }
      }
    }
  }

  /** A second run, with its own resolver replies and status codes, starts
      from the table the first run left. It never sends a link the first run
      delivered, nor any link that table holds, whatever the resolver answers
      this time. */
  lemma RerunNeverRedelivers(head: HeadOracle, respond: StatusOracle, head': HeadOracle, respond': StatusOracle, s: Settings, posts: seq<Post>, rows: map<string, string>)
    ensures var first := Run(head, respond, s, posts, Start(rows));
      forall e, u :: e in Run(head', respond', s, posts, Start(first.rows)).trace && Sends(e, u) ==>
        u !in first.rows && forall f :: f in first.trace ==> !Delivers(f, u)
  {
    var first := Run(head, respond, s, posts, Start(rows));
    RunSendsOnlyFresh(head', respond', s, posts, first.rows);
    RunRecords(head, respond, s, posts, rows);
  }

  /** When every post the second run keeps was kept by the first run too
      (the filters, with the resolver's replies of each run, agree on them),
      the second run sends only posts whose link the first run tried and got
      refused for. */
  lemma RerunSendsOnlyRefused(head: HeadOracle, respond: StatusOracle, head': HeadOracle, respond': StatusOracle, s: Settings, posts: seq<Post>, rows: map<string, string>)
    requires forall p :: p in posts && !Ignored(head', s, p) ==> !Ignored(head, s, p)
    ensures var first := Run(head, respond, s, posts, Start(rows));
      forall e, u :: e in Run(head', respond', s, posts, Start(first.rows)).trace && Sends(e, u) ==>
        u !in first.rows && exists f :: f in first.trace && Sends(f, u) && f.status != StatusOk
  {
    var first := Run(head, respond, s, posts, Start(rows));
    RunSendsOnlyFresh(head', respond', s, posts, first.rows);
    RunCoversPosts(head, respond, s, posts, rows);
  }

  /** When the webhook accepted every request of a run, and every post the
      second run keeps was kept by the first, running again over the same
      posts does nothing at all. */
  lemma RerunAfterSuccessIsSilent(head: HeadOracle, respond: StatusOracle, head': HeadOracle, respond': StatusOracle, s: Settings, posts: seq<Post>, rows: map<string, string>)
    requires forall p :: p in posts && !Ignored(head', s, p) ==> !Ignored(head, s, p)
    requires forall e :: e in Run(head, respond, s, posts, Start(rows)).trace && e.Send? ==> e.status == StatusOk
    ensures var first := Run(head, respond, s, posts, Start(rows));
      Run(head', respond', s, posts, Start(first.rows)) == Start(first.rows)
  {
    var first := Run(head, respond, s, posts, Start(rows));
    var second := Run(head', respond', s, posts, Start(first.rows));
    RunPacing(head', respond', s, posts, first.rows);
    if second.trace != [] {
      var e := second.trace[|second.trace| - 1];
      assert e in second.trace && e.Send?;
      RunSendsOnlyFresh(head', respond', s, posts, first.rows);
      var u := e.payload.attachments[0].titleLink;
      RerunSendsOnlyRefused(head, respond, head', respond', s, posts, rows);
      assert Sends(e, u);
      assert false;
    }
    RunRecords(head', respond', s, posts, first.rows);
    RunKeepsRows(head', respond', s, posts, first.rows);
    assert second.rows == first.rows;
  }

  /** End to end on three posts: two whose links resolved to the same
      destination and one whose title holds an ignore word. After
      deduplication one request is made, and one row is recorded. */
  lemma DuplicateAndIgnoredExample(head: HeadOracle, respond: StatusOracle)
    requires respond(0) == StatusOk
    ensures var s := Settings([], ["F1"], "news", "https://hooks.example/T");
      var posts := Dedup([Post("first", "https://a.example/1"), Post("again", "https://a.example/1"), Post("F1 GP", "https://a.example/2")]);
      var g := Run(head, respond, s, posts, Start(map[]));
      g.trace == [Wait(SlackPostWait), Send("https://hooks.example/T", Payload("news", [Post("first", "https://a.example/1")], 1), StatusOk)] &&
      g.rows == map["https://a.example/1" := "first"]
  {
    var s := Settings([], ["F1"], "news", "https://hooks.example/T");
    var p0, p1, p2 := Post("first", "https://a.example/1"), Post("again", "https://a.example/1"), Post("F1 GP", "https://a.example/2");
    var ps := [p0, p1, p2];
    assert ps[..2][..1] == [p0] && ps[..2] == [p0, p1];
    assert Dedup([p0]) == [p0];
    assert Dedup([p0, p1]) == [p0];
    assert Dedup(ps) == [p0, p2];
    MissingCharExcludes(p0.title, "F1", 'F');
    assert !Ignored(head, s, p0);
    assert OccursAt(p2.title, "F1", 0);
    assert Ignored(head, s, p2);
    assert [p0, p2][..1] == [p0];
  }

  // ---------------------------------------------------------------------
  // The Rss table and the dispatcher loop

  /** The Rss table: one row per delivered link (unique url column) with its title. */
  class RssTable {
    var rows: map<string, string>

    constructor (rows: map<string, string>)
      ensures this.rows == rows
    {
      this.rows := rows;
    }

    /** Whether a row for `url` exists (the select query returns a row). */
    method Has(url: string) returns (found: bool)
      ensures found <==> url in rows
    {
      found := url in rows;
    }

    /** Insert a row; the unique constraint refuses a second row for a link,
        which leaves the table as it was and reports `inserted == false`. */
    method Save(title: string, url: string) returns (inserted: bool)
      modifies this
      ensures inserted <==> url !in old(rows)
      ensures rows == if inserted then old(rows)[url := title] else old(rows)
    {
      inserted := url !in rows;
      if inserted {
        rows := rows[url := title];
      }
    }
  }

  /** exec_request_slack: the loop over the posts. Returns what it did to the
      outside world; the table ends as the run function says, and no insert is
      ever refused by the unique constraint. */
  method ExecRequestSlack(table: RssTable, head: HeadOracle, respond: StatusOracle, s: Settings, posts: seq<Post>)
    returns (trace: seq<Effect>)
    modifies table
    ensures var g := Run(head, respond, s, posts, Start(old(table.rows)));
      trace == g.trace && table.rows == g.rows
  {
    trace := [];
    var sends: nat := 0;
    for i := 0 to |posts|
      invariant Run(head, respond, s, posts[..i], Start(old(table.rows))) == Progress(trace, table.rows, sends)
    {
      var post := posts[i];
      RunSnoc(head, respond, s, posts, i, Start(old(table.rows)));
      ghost var next := Step(head, respond, s, post, Progress(trace, table.rows, sends));
      assert Run(head, respond, s, posts[..i + 1], Start(old(table.rows))) == next;
      if TitleContainsIgnoreWords(post.title, s.ignoreWords) {
        assert Ignored(head, s, post);
        continue;
      }
      if UrlContainsIgnoreDomains(head, post.titleLink, s.ignoreDomains) {
        assert Ignored(head, s, post);
        continue;
      }
      assert !Ignored(head, s, post);
      var recorded := table.Has(post.titleLink);
      if !recorded {
        ghost var done := trace;
        trace := trace + [Wait(SlackPostWait)];
        var payload := PayloadFor(s, post);
        var status := respond(sends);
        trace := trace + [Send(s.webhookUrl, payload, status)];
        assert trace == done + [Wait(SlackPostWait), Send(s.webhookUrl, payload, status)];
        sends := sends + 1;
        if status == StatusOk {
          var inserted := table.Save(post.title, post.titleLink);
          assert inserted;
        }
      }
    }
    assert posts[..|posts|] == posts;
  }

  /** post_to_slack: build the posts, then dispatch them. When a publish date
      does not parse the run ends before anything is sent or recorded. */
  method PostToSlack(table: RssTable, head: HeadOracle, parse: DateParser, respond: StatusOracle,
                     feeds: seq<seq<Entry>>, s: Settings, from: int, to: int)
    returns (r: Result<seq<Effect>, MakeError>)
    modifies table
    ensures var sel := Selected(head, parse, Flatten(feeds), from, to);
      if sel.Err? then r == Err(sel.error) && table.rows == old(table.rows)
      else var g := Run(head, respond, s, Dedup(sel.value), Start(old(table.rows)));
        r == Ok(g.trace) && table.rows == g.rows
  {
    var made := MakePosts(head, parse, feeds, from, to);
    if made.Err? {
      return Err(made.error);
    }
    var trace := ExecRequestSlack(table, head, respond, s, made.value);
    return Ok(trace);
  }
}
