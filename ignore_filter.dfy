/** The two ignore filters applied to a post before it is dispatched: a title
    holding an ignore word, and a link whose resolved destination is served
    from an ignored network location. */
module IgnoreFilter {

  import opened Strings
  import opened Web

  /** title_contains_ignore_words: some ignore word occurs in the title
      (case-sensitive substring; any() over the words, left to right). */
  function TitleContainsIgnoreWords(title: string, ignoreWords: seq<string>): (r: bool)
    ensures r <==> exists i, k :: 0 <= i < |ignoreWords| && OccursAt(title, ignoreWords[i], k)
  {
    if ignoreWords == [] then false
    else
      var rest := TitleContainsIgnoreWords(title, ignoreWords[1..]);
      assert rest <==> exists i, k :: 1 <= i < |ignoreWords| && OccursAt(title, ignoreWords[i], k) by {
        forall i | 1 <= i < |ignoreWords| ensures ignoreWords[1..][i - 1] == ignoreWords[i] { }
      }
      Contains(title, ignoreWords[0]) || rest
  }

  /** any(netloc == domain for domain in domains): exact string equality only. */
  function NetLocListed(netloc: string, domains: seq<string>): (r: bool)
    ensures r <==> exists i :: 0 <= i < |domains| && domains[i] == netloc
  {
    if domains == [] then false
    else
      var rest := NetLocListed(netloc, domains[1..]);
      assert rest <==> exists i :: 1 <= i < |domains| && domains[i] == netloc by {
        forall i | 1 <= i < |domains| ensures domains[1..][i - 1] == domains[i] { }
      }
      domains[0] == netloc || rest
  }

  /** url_contains_ignore_domains: the link is resolved first, and it is the
      network location of the resolved URL that must equal a listed domain. */
  function UrlContainsIgnoreDomains(head: HeadOracle, titleLink: string, ignoreDomains: seq<string>): (r: bool)
    ensures r <==> exists i :: 0 <= i < |ignoreDomains| && ignoreDomains[i] == NetLoc(RedirectedUrl(head, titleLink))
  {
    NetLocListed(NetLoc(RedirectedUrl(head, titleLink)), ignoreDomains)
  }

  /** No ignore word, no ignored title. */
  lemma NoIgnoreWordsIgnoresNothing(title: string)
    ensures !TitleContainsIgnoreWords(title, [])
  {
  }

  /** A word holding a character the title lacks cannot occur in the title. */
  lemma MissingCharExcludes(title: string, word: string, c: char)
    requires c in word && c !in title
    ensures forall k :: !OccursAt(title, word, k)
  {
    var j :| 0 <= j < |word| && word[j] == c;
    forall k | 0 <= k && k + |word| <= |title| ensures !OccursAt(title, word, k) {
      assert title[k..k + |word|][j] != c;
    }
  }

  /** The two ignored titles of the project's unit test for title_contains_ignore_words
      (a long title is written as two literals joined, which is the same string). */
  lemma TitleFilterIgnoresExamples()
    ensures TitleContainsIgnoreWords("古賀さん次男玄暉が優勝 悲しみ耐え「何としても」 - ニッカンスポーツ", ["ニッカンスポーツ", "F1"])
    ensures TitleContainsIgnoreWords("レッドブル・ホンダF1のマックス・フェルスタッペン、" + "ポジションを返さなければ勝っていた？ / F1バーレーンGP決勝 - F1-Gate.com", ["ニッカンスポーツ", "F1"])
  {
    var words := ["ニッカンスポーツ", "F1"];
    var t1 := "古賀さん次男玄暉が優勝 悲しみ耐え「何としても」 - ニッカンスポーツ";
    assert OccursAt(t1, words[0], |t1| - 8);
    var t2 := "レッドブル・ホンダF1のマックス・フェルスタッペン、" + "ポジションを返さなければ勝っていた？ / F1バーレーンGP決勝 - F1-Gate.com";
    assert OccursAt(t2, words[1], 9);
  }

  /** The first title the same test keeps. */
  lemma TitleFilterKeepsOricon()
    ensures !TitleContainsIgnoreWords("松本人志“ネットニュースの写真”に問題提起「悪意に満ちたやつある」" + "（オリコン） - Yahoo!ニュース - Yahoo!ニュース", ["ニッカンスポーツ", "F1"])
  {
    var title := "松本人志“ネットニュースの写真”に問題提起「悪意に満ちたやつある」" + "（オリコン） - Yahoo!ニュース - Yahoo!ニュース";
    assert 'カ' !in title && 'F' !in title;
    TitleKeptIfCharsMissing(title, 'カ', 'F');
  }

  /** The second title the same test keeps. */
  lemma TitleFilterKeepsMainichi()
    ensures !TitleContainsIgnoreWords("未開封マリオに7300万円 ゲームソフト最高落札額" + " 米で競売 - 毎日新聞 - 毎日新聞", ["ニッカンスポーツ", "F1"])
  {
    TitleKeptIfCharsMissing("未開封マリオに7300万円 ゲームソフト最高落札額" + " 米で競売 - 毎日新聞 - 毎日新聞", 'ニ', 'F');
  }

  /** A title lacking one character of each of the test's two ignore words is kept. */
  lemma TitleKeptIfCharsMissing(title: string, c0: char, c1: char)
    requires c0 in "ニッカンスポーツ" && c0 !in title
    requires c1 in "F1" && c1 !in title
    ensures !TitleContainsIgnoreWords(title, ["ニッカンスポーツ", "F1"])
  {
    var words := ["ニッカンスポーツ", "F1"];
    MissingCharExcludes(title, words[0], c0);
    MissingCharExcludes(title, words[1], c1);
  }

  /** For a link the resolver leaves where it is (the HEAD request raised,
      named no final URL, or ended at the link itself), the domain filter fires
      exactly when the host of the link is listed: neither a parent domain nor a
      subdomain of a listed domain counts. */
  lemma {:induction false} DomainFilterIsExactHost(head: HeadOracle, scheme: string, host: string, path: string, ignoreDomains: seq<string>)
    requires scheme != [] && IsAsciiLetter(scheme[0])
    requires forall k :: 0 <= k < |scheme| ==> IsSchemeChar(scheme[k])
    requires forall k :: 0 <= k < |host| ==> !IsNetLocDelimiter(host[k])
    requires path == [] || IsNetLocDelimiter(path[0])
    requires RedirectedUrl(head, scheme + "://" + host + path) == scheme + "://" + host + path
    ensures UrlContainsIgnoreDomains(head, scheme + "://" + host + path, ignoreDomains) <==> host in ignoreDomains
  {
    NetLocOfUrl(scheme, host, path);
  }

  /** The first domain case of the project's unit test, with the network
      unreachable so that the resolver falls back to the link itself (each link
      is written as scheme, "://", host and path joined). */
  lemma DomainFilterIgnoresF1Gate(head: HeadOracle)
    requires head("https" + "://" + "f1-gate.com" + "/verstappen/f1_61457.html") == Raised
    ensures UrlContainsIgnoreDomains(head, "https" + "://" + "f1-gate.com" + "/verstappen/f1_61457.html", ["f1-gate.com", "www.nikkansports.com"])
  {
    DomainFilterIsExactHost(head, "https", "f1-gate.com", "/verstappen/f1_61457.html", ["f1-gate.com", "www.nikkansports.com"]);
  }
  /** The second domain case of the same test. */
  lemma DomainFilterIgnoresNikkansports(head: HeadOracle)
    requires head("https" + "://" + "www.nikkansports.com" + "/baseball/news/202104040000263.html") == Raised
    ensures UrlContainsIgnoreDomains(head, "https" + "://" + "www.nikkansports.com" + "/baseball/news/202104040000263.html", ["f1-gate.com", "www.nikkansports.com"])
  {
    DomainFilterIsExactHost(head, "https", "www.nikkansports.com", "/baseball/news/202104040000263.html", ["f1-gate.com", "www.nikkansports.com"]);
  }

  /** The parent domain is listed, the subdomain is not: the link is kept. */
  lemma DomainFilterKeepsUnlistedSubdomain(head: HeadOracle)
    requires head("https" + "://" + "news.f1-gate.com" + "/verstappen/f1_61457.html") == Raised
    ensures !UrlContainsIgnoreDomains(head, "https" + "://" + "news.f1-gate.com" + "/verstappen/f1_61457.html", ["f1-gate.com", "www.nikkansports.com"])
  {
    DomainFilterIsExactHost(head, "https", "news.f1-gate.com", "/verstappen/f1_61457.html", ["f1-gate.com", "www.nikkansports.com"]);
  }
}
