/** Image discovery (`GetImagesURLS` in `controllers/images/service.go`):
    walk the listing pages 1, 2, 3, ... collecting card nodes until exactly the
    requested amount is reached, then read each node's image address. */
module Discovery {
  import opened Basics
  import opened Decimal
  import opened Browser
  import opened Failures

  /** `advancePage`: page 1 (or less) is the listing itself, page n the
      listing followed by `/page/n`. */
  function AdvancePage(url: string, page: int): (r: string)
    ensures page <= 1 ==> r == url
    ensures page > 1 ==> |r| > |url| + 6 && r[..|url| + 6] == url + "/page/"
    ensures page > 1 ==> AllDigits(r[|url| + 6..]) && Value(r[|url| + 6..]) == page && r[|url| + 6] != '0'
  {
    if page <= 1 then url
    else
      var r := url + "/page/" + Format(page as nat);
      assert r[|url| + 6..] == Format(page as nat);
      r
  }

  /** Distinct page numbers (from 1 on) lead to distinct addresses. */
  lemma AdvancePageInjective(url: string, p: int, q: int)
    requires 1 <= p && 1 <= q && p != q
    ensures AdvancePage(url, p) != AdvancePage(url, q)
  {
  }

  /** The addresses of pages 1..n, in the order they are opened. */
  function PageUrls(url: string, n: nat): seq<string> {
    seq(n, i requires 0 <= i < n => AdvancePage(url, i + 1))
  }

  predicate AllLoaded(pages: seq<PageLoad>) {
    forall i :: 0 <= i < |pages| ==> pages[i].Loaded?
  }

  /** The nodes of the given pages, concatenated in page order. */
  function AllNodes(pages: seq<PageLoad>): seq<Node> {
    if pages == [] then []
    else AllNodes(pages[..|pages| - 1]) + (if pages[|pages| - 1].Loaded? then pages[|pages| - 1].nodes else [])
  }

  lemma {:induction false} AllNodesAppend(a: seq<PageLoad>, b: seq<PageLoad>)
    ensures AllNodes(a + b) == AllNodes(a) + AllNodes(b)
    decreases |b|
  {
    if b == [] {
      assert a + b == a;
    } else {
      var b' := b[..|b| - 1];
      assert (a + b)[..|a + b| - 1] == a + b';
      AllNodesAppend(a, b');
    }
  }

  /** The outcome of the node-collection loop and the number of the last page
      it opened (0 when not even the listing exists). */
  datatype Walk = Walk(outcome: Result<seq<Node>, ScrapeError>, lastPage: nat)

  /** The node-collection loop from page `page` on, with `acc` collected so far.
      Page n is `pages[n - 1]`; opening a page past the list ends the walk
      with `PagesExhausted`. */
  function WalkFrom(site: string, pages: seq<PageLoad>, page: nat, acc: seq<Node>, amount: int): Walk
    requires page >= 1
    decreases |pages| + 1 - page
  {
    if page > |pages| then Walk(Fail(PagesExhausted), |pages|)
    else if pages[page - 1].NavigationFailed? then
      Walk(Fail(NavigationError(AdvancePage(site, page), pages[page - 1].reason)), page)
    else if |acc| > amount then Walk(Ok(acc), page)
    else if pages[page - 1].QueryFailed? then Walk(Fail(QueryError(pages[page - 1].reason)), page)
    else
      var local := pages[page - 1].nodes;
      var left := amount - |acc|;
      if |local| >= left then Walk(Ok(acc + local[..left]), page)
      else WalkFrom(site, pages, page + 1, acc + local, amount)
  }

  function WalkPages(site: string, pages: seq<PageLoad>, amount: int): Walk {
    WalkFrom(site, pages, 1, [], amount)
  }

  /** What holds whenever the loop is about to open page `page`. */
  ghost predicate WalkInvariant(pages: seq<PageLoad>, page: nat, acc: seq<Node>, amount: int) {
    && 1 <= page <= |pages| + 1
    && AllLoaded(pages[..page - 1])
    && acc == AllNodes(pages[..page - 1])
    && (page > 1 ==> |acc| < amount)
  }

  /** How page `page` extends the pages before it. */
  lemma StepFacts(pages: seq<PageLoad>, page: nat)
    requires 1 <= page <= |pages|
    ensures AllNodes(pages[..page]) == AllNodes(pages[..page - 1])
              + (if pages[page - 1].Loaded? then pages[page - 1].nodes else [])
    ensures |AllNodes(pages[..page])| <= |AllNodes(pages)|
    ensures AllLoaded(pages[..page]) <==> AllLoaded(pages[..page - 1]) && pages[page - 1].Loaded?
    ensures !pages[page - 1].Loaded? ==> !AllLoaded(pages)
  {
    var p := pages[page - 1];
    assert pages[..page] == pages[..page - 1] + [p];
    AllNodesAppend(pages[..page - 1], [p]);
    assert AllNodes([p]) == (if p.Loaded? then p.nodes else []) by {
      assert [p][..0] == [];
    }
    AllNodesAppend(pages[..page], pages[page..]);
    assert pages[..page] + pages[page..] == pages;
  }

  lemma {:induction false} WalkFromOk(site: string, pages: seq<PageLoad>, page: nat, acc: seq<Node>, amount: int)
    requires amount >= 0 && WalkInvariant(pages, page, acc, amount)
    ensures var w := WalkFrom(site, pages, page, acc, amount);
      w.outcome.Ok? ==>
        && page <= w.lastPage <= |pages|
        && AllLoaded(pages[..w.lastPage])
        && |AllNodes(pages[..w.lastPage])| >= amount
        && w.outcome.value == AllNodes(pages[..w.lastPage])[..amount]
        && (amount > 0 ==> |AllNodes(pages[..w.lastPage - 1])| < amount)
    decreases |pages| + 1 - page
  {
    if page <= |pages| && pages[page - 1].Loaded? {
      StepFacts(pages, page);
      var local := pages[page - 1].nodes;
      var left := amount - |acc|;
      if |local| >= left {
        assert (acc + local)[..amount] == acc + local[..left];
      } else {
        WalkFromOk(site, pages, page + 1, acc + local, amount);
      }
    }
  }

  lemma {:induction false} WalkFromExhausted(site: string, pages: seq<PageLoad>, page: nat, acc: seq<Node>, amount: int)
    requires WalkInvariant(pages, page, acc, amount)
    ensures WalkFrom(site, pages, page, acc, amount).outcome == Fail(PagesExhausted) <==>
              |pages| == 0 || (AllLoaded(pages) && |AllNodes(pages)| < amount)
    decreases |pages| + 1 - page
  {
    if page > |pages| {
      assert pages[..page - 1] == pages;
    } else {
      StepFacts(pages, page);
      if pages[page - 1].Loaded? && !(|acc| > amount) && |pages[page - 1].nodes| < amount - |acc| {
        WalkFromExhausted(site, pages, page + 1, acc + pages[page - 1].nodes, amount);
      }
    }
  }

  lemma {:induction false} WalkFromFails(site: string, pages: seq<PageLoad>, page: nat, acc: seq<Node>, amount: int)
    requires WalkInvariant(pages, page, acc, amount)
    ensures var w := WalkFrom(site, pages, page, acc, amount);
      w.outcome.Fail? && w.outcome.error != PagesExhausted ==>
        && page <= w.lastPage <= |pages|
        && AllLoaded(pages[..w.lastPage - 1])
        && ((pages[w.lastPage - 1].NavigationFailed?
             && w.outcome.error == NavigationError(AdvancePage(site, w.lastPage), pages[w.lastPage - 1].reason))
            || (pages[w.lastPage - 1].QueryFailed?
                && w.outcome.error == QueryError(pages[w.lastPage - 1].reason)))
    decreases |pages| + 1 - page
  {
    if page <= |pages| && pages[page - 1].Loaded? && !(|acc| > amount) && |pages[page - 1].nodes| < amount - |acc| {
      StepFacts(pages, page);
      WalkFromFails(site, pages, page + 1, acc + pages[page - 1].nodes, amount);
    }
  }

  /** A successful walk returns exactly `amount` nodes (none for a negative
      amount): the first `amount` nodes of the pages opened, in page order, and
      the last page opened was needed, the earlier ones falling short. */
  lemma WalkSucceeds(site: string, pages: seq<PageLoad>, amount: int)
    requires WalkPages(site, pages, amount).outcome.Ok?
    ensures var w := WalkPages(site, pages, amount);
      && 1 <= w.lastPage <= |pages|
      && (amount >= 0 ==> AllLoaded(pages[..w.lastPage]))
      && |w.outcome.value| == Max0(amount)
      && (amount >= 0 ==> |AllNodes(pages[..w.lastPage])| >= amount
                          && w.outcome.value == AllNodes(pages[..w.lastPage])[..amount])
      && (amount > 0 ==> |AllNodes(pages[..w.lastPage - 1])| < amount)
  {
    assert pages[..0] == [];
    if amount >= 0 {
      WalkFromOk(site, pages, 1, [], amount);
    }
  }

  /** The walk runs out of pages exactly when every page loaded and together
      they hold fewer than `amount` nodes (or there is no page at all); empty
      pages are not an error. */
  lemma WalkExhausted(site: string, pages: seq<PageLoad>, amount: int)
    ensures WalkPages(site, pages, amount).outcome == Fail(PagesExhausted) <==>
              |pages| == 0 || (AllLoaded(pages) && |AllNodes(pages)| < amount)
  {
    assert pages[..0] == [];
    WalkFromExhausted(site, pages, 1, [], amount);
  }

  /** Any other failure happens on the last page opened: its navigation or its
      node query failed, after every earlier page loaded and fell short. */
  lemma WalkFailsAtLastPage(site: string, pages: seq<PageLoad>, amount: int)
    requires WalkPages(site, pages, amount).outcome.Fail?
    requires WalkPages(site, pages, amount).outcome.error != PagesExhausted
    ensures var w := WalkPages(site, pages, amount);
      && 1 <= w.lastPage <= |pages|
      && AllLoaded(pages[..w.lastPage - 1])
      && ((pages[w.lastPage - 1].NavigationFailed?
           && w.outcome.error == NavigationError(AdvancePage(site, w.lastPage), pages[w.lastPage - 1].reason))
          || (pages[w.lastPage - 1].QueryFailed?
              && w.outcome.error == QueryError(pages[w.lastPage - 1].reason)))
  {
    assert pages[..0] == [];
    WalkFromFails(site, pages, 1, [], amount);
  }

  /** The node-accumulation loop of `GetImagesURLS`. `visited` lists the
      addresses navigated to, starting with the listing itself. */
  method CollectNodes(site: string, pages: seq<PageLoad>, amount: int)
    returns (r: Result<seq<Node>, ScrapeError>, visited: seq<string>)
    ensures r == WalkPages(site, pages, amount).outcome
    ensures visited == PageUrls(site, WalkPages(site, pages, amount).lastPage)
  {
    var nodes: seq<Node> := [];
    var pageNumber := 1;
    visited := [];
    if |pages| == 0 {
      return Fail(PagesExhausted), visited;
    }
    visited := [site];
    assert visited == PageUrls(site, 1);
    if pages[0].NavigationFailed? {
      return Fail(NavigationError(site, pages[0].reason)), visited;
    }
    while |nodes| <= amount
      invariant 1 <= pageNumber <= |pages|
      invariant !pages[pageNumber - 1].NavigationFailed?
      invariant visited == PageUrls(site, pageNumber)
      invariant WalkPages(site, pages, amount) == WalkFrom(site, pages, pageNumber, nodes, amount)
      decreases |pages| - pageNumber
    {
      if pages[pageNumber - 1].QueryFailed? {
        return Fail(QueryError(pages[pageNumber - 1].reason)), visited;
      }
      var localNodes := pages[pageNumber - 1].nodes;
      var nodesLeft := amount - |nodes|;
      if |localNodes| >= nodesLeft {
        nodes := nodes + localNodes[..nodesLeft];
        return Ok(nodes), visited;
      }
      nodes := nodes + localNodes;
      pageNumber := pageNumber + 1;
      if pageNumber > |pages| {
        return Fail(PagesExhausted), visited;
      }
      visited := visited + [AdvancePage(site, pageNumber)];
      assert visited == PageUrls(site, pageNumber);
      if pages[pageNumber - 1].NavigationFailed? {
        return Fail(NavigationError(AdvancePage(site, pageNumber), pages[pageNumber - 1].reason)), visited;
      }
    }
    return Ok(nodes), visited;
  }

  /** The address a node yields: `data-src` when present (even empty), else `src`. */
  function ImageSource(n: Node): (r: Option<string>)
    ensures r.Some? <==> "data-src" in n.attributes || "src" in n.attributes
    ensures r.Some? ==> r.value in n.attributes.Values
    ensures "data-src" in n.attributes ==> r == Some(n.attributes["data-src"])
    ensures "data-src" !in n.attributes && "src" in n.attributes ==> r == Some(n.attributes["src"])
  {
    if "data-src" in n.attributes then Some(n.attributes["data-src"])
    else if "src" in n.attributes then Some(n.attributes["src"])
    else None
  }

  /** The attribute pass as a whole: every node's address in order, or
      `NoImageSource` when any node has neither attribute. */
  function Sources(nodes: seq<Node>): Result<seq<string>, ScrapeError> {
    if forall i :: 0 <= i < |nodes| ==> ImageSource(nodes[i]).Some? then
      Ok(seq(|nodes|, i requires 0 <= i < |nodes| && ImageSource(nodes[i]).Some? => ImageSource(nodes[i]).value))
    else Fail(NoImageSource)
  }

  /** The attribute-selection loop of `GetImagesURLS`. */
  method ExtractUrls(nodes: seq<Node>) returns (r: Result<seq<string>, ScrapeError>)
    ensures r == Sources(nodes)
    ensures r.Ok? ==> |r.value| == |nodes|
  {
    var imageUrls: seq<string> := [];
    var i := 0;
    while i < |nodes|
      invariant 0 <= i <= |nodes|
      invariant |imageUrls| == i
      invariant forall k :: 0 <= k < i ==> ImageSource(nodes[k]) == Some(imageUrls[k])
    {
      var node := nodes[i];
      if "data-src" in node.attributes {
        imageUrls := imageUrls + [node.attributes["data-src"]];
        i := i + 1;
        continue;
      }
      if "src" in node.attributes {
        imageUrls := imageUrls + [node.attributes["src"]];
        i := i + 1;
        continue;
      }
      return Fail(NoImageSource);
    }
    assert forall k :: 0 <= k < |nodes| ==> ImageSource(nodes[k]).Some?;
    assert imageUrls == Sources(nodes).value;
    return Ok(imageUrls);
  }

  /** What `GetImagesURLS` returns. */
  function Discovered(site: string, pages: seq<PageLoad>, amount: int): Result<seq<string>, ScrapeError> {
    match WalkPages(site, pages, amount).outcome
    case Ok(nodes) => Sources(nodes)
    case Fail(e) => Fail(e)
  }

  /** `GetImagesURLS`: the node loop, then the attribute pass, stopping at the
      first error. */
  method GetImagesUrls(site: string, pages: seq<PageLoad>, amount: int)
    returns (r: Result<seq<string>, ScrapeError>, visited: seq<string>)
    ensures r == Discovered(site, pages, amount)
    ensures visited == PageUrls(site, WalkPages(site, pages, amount).lastPage)
  {
    var nodes;
    nodes, visited := CollectNodes(site, pages, amount);
    if nodes.Fail? {
      return Fail(nodes.error), visited;
    }
    r := ExtractUrls(nodes.value);
  }

  /** Successful discovery yields exactly `amount` addresses (none for a
      negative amount), the i-th being the address of the i-th node of the
      listing in page-then-position order. */
  lemma DiscoveredInPageOrder(site: string, pages: seq<PageLoad>, amount: int)
    requires Discovered(site, pages, amount).Ok?
    ensures var urls := Discovered(site, pages, amount).value;
            var w := WalkPages(site, pages, amount);
      && |urls| == Max0(amount)
      && w.lastPage <= |pages|
      && forall i :: 0 <= i < |urls| ==>
           i < |AllNodes(pages[..w.lastPage])| && ImageSource(AllNodes(pages[..w.lastPage])[i]) == Some(urls[i])
  {
    WalkSucceeds(site, pages, amount);
  }

  /** The visited addresses are pairwise distinct: no page is opened twice. */
  lemma VisitedPagesDistinct(site: string, n: nat, i: nat, j: nat)
    requires i < j < n
    ensures PageUrls(site, n)[i] != PageUrls(site, n)[j]
  {
    AdvancePageInjective(site, i + 1, j + 1);
  }
}
