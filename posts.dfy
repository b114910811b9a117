/** Building the posts of one run from the fetched feeds (make_posts): keep
    the dated entries of every feed in feed order, keep those published inside
    the inclusive window, resolve their links, then drop every post whose
    resolved link an earlier post already carries. */
module Posts {

  import opened Wrappers
  import opened Web

  /** A feed entry as the feed parser hands it over: the `published` field is
      the raw date string, absent when the feed gave none. */
  datatype Entry = Entry(title: string, link: string, published: Option<string>)

  /** One post for the webhook: the entry's title and its resolved link. */
  datatype Post = Post(title: string, titleLink: string)

  /** The date parser raised on this `published` string; the run ends there. */
  datatype MakeError = MalformedDate(published: string)

  /** Date parsing followed by conversion to JST, giving an instant in
      seconds; None when the string cannot be parsed. */
  type DateParser = string -> Option<int>

  // ---------------------------------------------------------------------
  // Gathering the entries of all feeds

  /** The entries of all feeds, one feed after the other in request order. */
  function Flatten(feeds: seq<seq<Entry>>): (r: seq<Entry>)
    ensures forall i, e :: 0 <= i < |feeds| && e in feeds[i] ==> e in r
    ensures forall e :: e in r ==> exists i :: 0 <= i < |feeds| && e in feeds[i]
  {
    if feeds == [] then [] else Flatten(feeds[..|feeds| - 1]) + feeds[|feeds| - 1]
  }

  /** dig(entry, 'published') is truthy: the field is present and not empty. */
  predicate HasDate(e: Entry): (r: bool)
    ensures !r <==> e.published == None || e.published == Some("")
  {
    e.published.Some? && e.published.value != ""
  }

  /** The entries whose `published` field is truthy, in their order. */
  function Dated(es: seq<Entry>): (r: seq<Entry>)
    ensures forall k :: 0 <= k < |r| ==> HasDate(r[k])
    ensures forall e :: e in r ==> e in es
  {
    if es == [] then []
    else
      var last := es[|es| - 1];
      Dated(es[..|es| - 1]) + (if HasDate(last) then [last] else [])
  }

  lemma {:induction false} DatedAppend(a: seq<Entry>, b: seq<Entry>)
    ensures Dated(a + b) == Dated(a) + Dated(b)
    decreases |b|
  {
    if b == [] {
      assert a + b == a;
    } else {
      var n := |b| - 1;
      assert (a + b)[..|a + b| - 1] == a + b[..n];
      DatedAppend(a, b[..n]);
    }
  }

  // ---------------------------------------------------------------------
  // Selection by publish date

  /** The entry is dated, its date parses, and it lies in [from, to], both ends included. */
  predicate InWindow(parse: DateParser, e: Entry, from: int, to: int) {
    HasDate(e) && parse(e.published.value).Some? && from <= parse(e.published.value).value <= to
  }

  /** The entry is dated but its date does not parse. */
  predicate Malformed(parse: DateParser, e: Entry) {
    HasDate(e) && parse(e.published.value).None?
  }

  /** The post an entry turns into: its title and its resolved link. */
  function ToPost(head: HeadOracle, e: Entry): (r: Post)
    ensures r.title == e.title
    ensures r.titleLink == e.link || head(e.link) == Reached(r.titleLink)
  {
    Post(e.title, RedirectedUrl(head, e.link))
  }

  /** The first error wins; otherwise the posts are joined in order. */
  function Join(x: Result<seq<Post>, MakeError>, y: Result<seq<Post>, MakeError>): Result<seq<Post>, MakeError> {
    if x.Err? then x else if y.Err? then y else Ok(x.value + y.value)
  }

  lemma JoinAssociative(x: Result<seq<Post>, MakeError>, y: Result<seq<Post>, MakeError>, z: Result<seq<Post>, MakeError>)
    ensures Join(Join(x, y), z) == Join(x, Join(y, z))
  {
    if x.Ok? && y.Ok? && z.Ok? {
      assert (x.value + y.value) + z.value == x.value + (y.value + z.value);
    }
  }

  /** What one entry adds: nothing when undated or outside the window, its
      post when inside, and the error that ends the run when its date does not parse. */
  function Contribution(head: HeadOracle, parse: DateParser, e: Entry, from: int, to: int): (r: Result<seq<Post>, MakeError>)
    ensures r.Err? <==> Malformed(parse, e)
    ensures r.Err? ==> r.error == MalformedDate(e.published.value)
    ensures r.Ok? ==> (r.value == [ToPost(head, e)] <==> InWindow(parse, e, from, to))
    ensures r.Ok? && !InWindow(parse, e, from, to) ==> r.value == []
  {
    if !HasDate(e) then Ok([])
    else match parse(e.published.value)
      case None => Err(MalformedDate(e.published.value))
      case Some(t) => Ok(if from <= t <= to then [ToPost(head, e)] else [])
  }

  /** The posts of the in-window entries, in entry order, before deduplication;
      the error of the first entry whose date does not parse, if any. */
  function Selected(head: HeadOracle, parse: DateParser, es: seq<Entry>, from: int, to: int): (r: Result<seq<Post>, MakeError>)
    ensures r.Ok? ==> |r.value| <= |es|
    ensures r.Err? ==> exists e :: e in es && Malformed(parse, e) && r.error == MalformedDate(e.published.value)
  {
    if es == [] then Ok([])
    else Join(Selected(head, parse, es[..|es| - 1], from, to), Contribution(head, parse, es[|es| - 1], from, to))
  }

  /** Selection distributes over concatenation: posts of earlier feeds come
      first, and the earliest malformed date decides the error. */
  lemma {:induction false} SelectedAppend(head: HeadOracle, parse: DateParser, a: seq<Entry>, b: seq<Entry>, from: int, to: int)
    ensures Selected(head, parse, a + b, from, to) == Join(Selected(head, parse, a, from, to), Selected(head, parse, b, from, to))
    decreases |b|
  {
    if b == [] {
      assert a + b == a;
      var sa := Selected(head, parse, a, from, to);
      assert sa.Ok? ==> sa.value + [] == sa.value;
    } else {
      var n := |b| - 1;
      assert (a + b)[..|a + b| - 1] == a + b[..n];
      assert (a + b)[|a + b| - 1] == b[n];
      SelectedAppend(head, parse, a, b[..n], from, to);
      JoinAssociative(Selected(head, parse, a, from, to), Selected(head, parse, b[..n], from, to), Contribution(head, parse, b[n], from, to));
    }
  }

  /** Dropping the undated entries first changes nothing. */
  lemma {:induction false} SelectedDated(head: HeadOracle, parse: DateParser, es: seq<Entry>, from: int, to: int)
    ensures Selected(head, parse, Dated(es), from, to) == Selected(head, parse, es, from, to)
  {
    if es != [] {
      var n := |es| - 1;
      var last := es[n];
      SelectedDated(head, parse, es[..n], from, to);
      SelectedAppend(head, parse, Dated(es[..n]), if HasDate(last) then [last] else [], from, to);
      assert [last][..0] == [];
    }
  }

  /** An entry without a (non-empty) publish date never contributes, wherever it stands. */
  lemma UndatedNeverContributes(head: HeadOracle, parse: DateParser, a: seq<Entry>, e: Entry, b: seq<Entry>, from: int, to: int)
    requires !HasDate(e)
    ensures Selected(head, parse, a + [e] + b, from, to) == Selected(head, parse, a + b, from, to)
  {
    SelectedAppend(head, parse, a + [e], b, from, to);
    SelectedAppend(head, parse, a, [e], from, to);
    SelectedAppend(head, parse, a, b, from, to);
    assert [e][..0] == [];
    var sa := Selected(head, parse, a, from, to);
    assert Contribution(head, parse, e, from, to) == Ok([]);
    assert Selected(head, parse, [e], from, to) == Join(Ok([]), Ok([]));
    var none: seq<Post> := [];
    assert none + none == none;
    assert sa.Ok? ==> sa.value + [] == sa.value;
  }

  /** Selection fails exactly when some dated entry has a date that does not
      parse, and it then reports the first such entry. */
  lemma {:induction false} SelectedFailsOnFirstMalformed(head: HeadOracle, parse: DateParser, es: seq<Entry>, from: int, to: int)
    ensures Selected(head, parse, es, from, to).Err? <==> exists i :: 0 <= i < |es| && Malformed(parse, es[i])
    ensures Selected(head, parse, es, from, to).Err? ==>
      exists i :: 0 <= i < |es| && Malformed(parse, es[i]) && (forall j :: 0 <= j < i ==> !Malformed(parse, es[j])) &&
        Selected(head, parse, es, from, to).error == MalformedDate(es[i].published.value)
  {
    if es != [] {
      var n := |es| - 1;
      SelectedFailsOnFirstMalformed(head, parse, es[..n], from, to);
      assert forall i :: 0 <= i < n ==> es[..n][i] == es[i];
      var pre := Selected(head, parse, es[..n], from, to);
      var c := Contribution(head, parse, es[n], from, to);
      assert Selected(head, parse, es, from, to) == Join(pre, c);
      if pre.Err? {
        var i :| 0 <= i < n && Malformed(parse, es[i]) && (forall j :: 0 <= j < i ==> !Malformed(parse, es[j])) &&
          pre.error == MalformedDate(es[i].published.value);
      } else if c.Err? {
        assert Malformed(parse, es[n]) && forall j :: 0 <= j < n ==> !Malformed(parse, es[j]);
      } else {
        assert forall j :: 0 <= j <= n ==> !Malformed(parse, es[j]);
      }
    }
  }

  /** When selection succeeds, a post is selected exactly when some entry
      inside the window turns into it. */
  lemma {:induction false} SelectedMembers(head: HeadOracle, parse: DateParser, es: seq<Entry>, from: int, to: int)
    requires Selected(head, parse, es, from, to).Ok?
    ensures forall p :: p in Selected(head, parse, es, from, to).value <==>
      exists i :: 0 <= i < |es| && InWindow(parse, es[i], from, to) && p == ToPost(head, es[i])
  {
    if es != [] {
      var n := |es| - 1;
      SelectedMembers(head, parse, es[..n], from, to);
      assert forall i :: 0 <= i < n ==> es[..n][i] == es[i];
    }
  }

  // ---------------------------------------------------------------------
  // Deduplication by resolved link

  /** The list of resolved links, post by post (title_link_list). */
  function Links(ps: seq<Post>): (r: seq<string>)
    ensures |r| == |ps| && forall k :: 0 <= k < |ps| ==> r[k] == ps[k].titleLink
  {
    if ps == [] then [] else Links(ps[..|ps| - 1]) + [ps[|ps| - 1].titleLink]
  }

  /** Keep post i only when its link is not among the links of posts 0..i-1. */
  function Dedup(ps: seq<Post>): (r: seq<Post>)
    ensures |r| <= |ps|
  {
    if ps == [] then []
    else
      var n := |ps| - 1;
      Dedup(ps[..n]) + (if ps[n].titleLink in Links(ps[..n]) then [] else [ps[n]])
  }

  /** No earlier post carries the same link as post i. */
  ghost predicate IsFirst(ps: seq<Post>, i: int) {
    0 <= i < |ps| && forall j :: 0 <= j < i ==> ps[j].titleLink != ps[i].titleLink
  }

  /** The links are pairwise distinct. */
  ghost predicate DistinctLinks(ps: seq<Post>) {
    forall i, j :: 0 <= i < j < |ps| ==> ps[i].titleLink != ps[j].titleLink
  }

  /** The positions of the first occurrences of each link, in increasing order. */
  ghost function FirstOccurrences(ps: seq<Post>): (r: seq<nat>)
    ensures forall k :: 0 <= k < |r| ==> r[k] < |ps|
    ensures forall k, l :: 0 <= k < l < |r| ==> r[k] < r[l]
    ensures forall i :: i in r <==> IsFirst(ps, i)
  {
    if ps == [] then []
    else
      var n := |ps| - 1;
      var r := FirstOccurrences(ps[..n]) + (if IsFirst(ps, n) then [n] else []);
      assert forall i :: 0 <= i < n ==> (IsFirst(ps[..n], i) <==> IsFirst(ps, i));
      r
  }

  /** The last post's link was seen before exactly when it is not a first occurrence. */
  lemma LastLinkSeen(ps: seq<Post>)
    requires ps != []
    ensures var n := |ps| - 1; ps[n].titleLink in Links(ps[..n]) <==> !IsFirst(ps, n)
  {
    var n := |ps| - 1;
    var ls := Links(ps[..n]);
    if ps[n].titleLink in ls {
      var j :| 0 <= j < |ls| && ls[j] == ps[n].titleLink;
      assert ps[j].titleLink == ps[n].titleLink;
    }
  }

  /** One more post: both the kept posts and the first-occurrence positions
      grow by the last post exactly when it is a first occurrence. */
  lemma DedupSnoc(ps: seq<Post>)
    requires ps != []
    ensures var n := |ps| - 1;
      Dedup(ps) == Dedup(ps[..n]) + (if IsFirst(ps, n) then [ps[n]] else []) &&
      FirstOccurrences(ps) == FirstOccurrences(ps[..n]) + (if IsFirst(ps, n) then [n] else [])
  {
    LastLinkSeen(ps);
  }

  /** Deduplication keeps exactly the first occurrence of every link, in input
      order: an order-preserving subsequence of its input. */
  lemma {:induction false} DedupKeepsFirstOccurrences(ps: seq<Post>)
    ensures |Dedup(ps)| == |FirstOccurrences(ps)|
    ensures forall k :: 0 <= k < |Dedup(ps)| ==> Dedup(ps)[k] == ps[FirstOccurrences(ps)[k]]
  {
    if ps != [] {
      var n := |ps| - 1;
      var pre := ps[..n];
      DedupKeepsFirstOccurrences(pre);
      DedupSnoc(ps);
      var d, f := Dedup(pre), FirstOccurrences(pre);
      forall k | 0 <= k < |Dedup(ps)| ensures Dedup(ps)[k] == ps[FirstOccurrences(ps)[k]] {
        if k < |d| {
          assert Dedup(ps)[k] == d[k] && FirstOccurrences(ps)[k] == f[k];
          assert pre[f[k]] == ps[f[k]];
        }
      }
    }
  }

  /** No two posts left after deduplication share a link. */
  lemma DedupDistinct(ps: seq<Post>)
    ensures DistinctLinks(Dedup(ps))
  {
    DedupKeepsFirstOccurrences(ps);
    var f := FirstOccurrences(ps);
    forall i, j | 0 <= i < j < |Dedup(ps)| ensures Dedup(ps)[i].titleLink != Dedup(ps)[j].titleLink {
      assert f[j] in f;
    }
  }

  /** The first post carrying the same link as post i. */
  ghost function FirstWithLink(ps: seq<Post>, i: nat): (j: nat)
    requires i < |ps|
    ensures j <= i && IsFirst(ps, j) && ps[j].titleLink == ps[i].titleLink
  {
    if IsFirst(ps, i) then i
    else
      var j :| 0 <= j < i && ps[j].titleLink == ps[i].titleLink;
      FirstWithLink(ps, j)
  }

  /** Every link of the input survives, carried by the first post that had it. */
  lemma DedupCoversLinks(ps: seq<Post>)
    ensures forall i :: 0 <= i < |ps| ==> ps[FirstWithLink(ps, i)] in Dedup(ps)
  {
    DedupKeepsFirstOccurrences(ps);
    var f := FirstOccurrences(ps);
    forall i | 0 <= i < |ps| ensures ps[FirstWithLink(ps, i)] in Dedup(ps) {
      var j := FirstWithLink(ps, i);
      var k :| 0 <= k < |f| && f[k] == j;
      assert Dedup(ps)[k] == ps[j];
    }
  }

  /** Posts whose links are already distinct pass through unchanged. */
  lemma {:induction false} DedupOfDistinct(ps: seq<Post>)
    requires DistinctLinks(ps)
    ensures Dedup(ps) == ps
  {
    if ps != [] {
      var n := |ps| - 1;
      DedupOfDistinct(ps[..n]);
      assert ps[n].titleLink !in Links(ps[..n]);
      assert ps[..n] + [ps[n]] == ps;
    }
  }

  /** Deduplicating twice is deduplicating once. */
  lemma DedupIdempotent(ps: seq<Post>)
    ensures Dedup(Dedup(ps)) == Dedup(ps)
  {
    DedupDistinct(ps);
    DedupOfDistinct(Dedup(ps));
  }

  // ---------------------------------------------------------------------
  // make_posts

  /** One more feed gathered. */
  lemma GatherStep(feeds: seq<seq<Entry>>, i: nat)
    requires i < |feeds|
    ensures Dated(Flatten(feeds[..i + 1])) == Dated(Flatten(feeds[..i])) + Dated(feeds[i])
  {
    assert feeds[..i + 1][..i] == feeds[..i];
    DatedAppend(Flatten(feeds[..i]), feeds[i]);
  }

  /** One more entry selected. */
  lemma SelectStep(head: HeadOracle, parse: DateParser, es: seq<Entry>, j: nat, from: int, to: int)
    requires j < |es|
    ensures Selected(head, parse, es[..j + 1], from, to)
      == Join(Selected(head, parse, es[..j], from, to), Contribution(head, parse, es[j], from, to))
  {
    assert es[..j + 1][..j] == es[..j];
  }

  /** Once a prefix fails, the whole selection fails with the same error. */
  lemma SelectedErrorStops(head: HeadOracle, parse: DateParser, es: seq<Entry>, j: nat, from: int, to: int)
    requires j < |es| && Selected(head, parse, es[..j + 1], from, to).Err?
    ensures Selected(head, parse, es, from, to) == Selected(head, parse, es[..j + 1], from, to)
  {
    SelectedAppend(head, parse, es[..j + 1], es[j + 1..], from, to);
    assert es[..j + 1] + es[j + 1..] == es;
  }

  /** make_posts: gather the dated entries of all feeds, turn the in-window
      ones into posts, then deduplicate by resolved link. A date that does not
      parse ends the run with that error. */
  method MakePosts(head: HeadOracle, parse: DateParser, feeds: seq<seq<Entry>>, from: int, to: int)
    returns (r: Result<seq<Post>, MakeError>)
    ensures var s := Selected(head, parse, Flatten(feeds), from, to);
      r == if s.Err? then s else Ok(Dedup(s.value))
  {
    var entries: seq<Entry> := [];
    for i := 0 to |feeds|
      invariant entries == Dated(Flatten(feeds[..i]))
    {
      GatherStep(feeds, i);
      entries := entries + Dated(feeds[i]);
    }
    assert feeds[..|feeds|] == feeds;
    SelectedDated(head, parse, Flatten(feeds), from, to);

    var posts: seq<Post> := [];
    for j := 0 to |entries|
      invariant Selected(head, parse, entries[..j], from, to) == Ok(posts)
    {
      var entry := entries[j];
      SelectStep(head, parse, entries, j, from, to);
      assert HasDate(entry);
      var date := parse(entry.published.value);
      if date.None? {
        SelectedErrorStops(head, parse, entries, j, from, to);
        return Err(MalformedDate(entry.published.value));
      }
      if from <= date.value <= to {
        var titleLink := RedirectedUrl(head, entry.link);
        posts := posts + [Post(entry.title, titleLink)];
      } else {
        assert posts + [] == posts;
      }
    }
    assert entries[..|entries|] == entries;
    posts := Dedup(posts);
    return Ok(posts);
  }
}
