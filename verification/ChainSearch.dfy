/**
 * The link-chain finder: a breadth-first search over the graph of article
 * links, discovered one downloaded page at a time, and the reconstruction
 * of the chain from the parent links it records.
 */
module ChainSearch {
  import opened Wrappers
  import opened Sequences
  import opened Strings
  import opened LinkFilter

  /**
   * What the search asks of the outside world: the page download
   * (`get_content`, None on a network or HTTP error), the `href` of every
   * anchor element of an HTML text (the HTML parser) and percent-decoding.
   */
  datatype Web = Web(fetch: string -> Option<string>,
                     anchors: string -> seq<Option<string>>,
                     unquote: string -> string)

  /** The links extracted from `page`, or None when it cannot be downloaded. */
  function Neighbors(w: Web, page: string): (links: Option<set<string>>)
    ensures links.None? <==> w.fetch(page).None?
  {
    match w.fetch(page)
    case None => None
    case Some(content) =>
      var window := ExtractContent(Some(content));
      Some(LinkSet(w.anchors(Slice(content, window.0, window.1)), w.unquote))
  }

  /** The HTML parser finds no anchor element in the empty text. */
  predicate ParsesEmpty(w: Web) {
    w.anchors([]) == []
  }

  /**
   * A downloaded page whose content window is empty, because a marker is
   * missing or the footer comes first, has no links: it is a dead end.
   */
  lemma EmptyWindowNoLinks(w: Web, page: string, content: string)
    requires ParsesEmpty(w) && w.fetch(page) == Some(content)
    requires !(Contains(content, ContentStartTag) && Contains(content, FooterTag))
             || ExtractContent(Some(content)).1 <= ExtractContent(Some(content)).0
    ensures Neighbors(w, page) == Some({})
  {
    var window := ExtractContent(Some(content));
    assert window.1 <= window.0;
    assert Slice(content, window.0, window.1) == [];
  }

  /** A graph discovered page by page: the links of each page, None when it cannot be read. */
  type Graph = string -> Option<set<string>>

  /** The graph of article links that `w` presents to the search. */
  function LinkGraph(w: Web): Graph {
    page => Neighbors(w, page)
  }

  /** `v` is a link of the readable page `u`. */
  predicate Edge(g: Graph, u: string, v: string) {
    g(u).Some? && v in g(u).value
  }

  ghost predicate IsPath(g: Graph, p: seq<string>) {
    |p| > 0 && forall i :: 0 <= i < |p| - 1 ==> Edge(g, p[i], p[i + 1])
  }

  /** A chain of links from `start` to a page whose name matches `finish` ignoring case. */
  ghost predicate IsChain(g: Graph, p: seq<string>, start: string, finish: string) {
    IsPath(g, p) && p[0] == start && SameIgnoringCase(p[|p| - 1], finish)
  }

  // ---------------------------------------------------------------------
  // Parent links
  // ---------------------------------------------------------------------

  /**
   * `parent` maps each recorded page to the page it was discovered from
   * (None for the root), and `depth` numbers the pages so that every
   * parent is one closer to a root: following parents always ends.
   */
  ghost predicate ParentForest(parent: map<string, Option<string>>, depth: map<string, nat>) {
    parent.Keys == depth.Keys
    && forall k {:trigger parent[k]} :: k in parent ==>
         (parent[k].None? ==> depth[k] == 0)
         && (parent[k].Some? ==> parent[k].value in parent && depth[k] == depth[parent[k].value] + 1)
  }

  /**
   * `make_chain`: walk the parent links from `finish` up to the root,
   * then reverse. The result runs from a root to `finish`, each page the
   * parent of the next.
   */
  method MakeChain(finish: string, visited: map<string, Option<string>>, ghost depth: map<string, nat>)
    returns (chain: seq<string>)
    requires finish in visited && ParentForest(visited, depth)
    ensures |chain| == depth[finish] + 1
    ensures chain[|chain| - 1] == finish
    ensures forall i :: 0 <= i < |chain| ==> chain[i] in visited
    ensures visited[chain[0]] == None
    ensures forall i :: 0 < i < |chain| ==> visited[chain[i]] == Some(chain[i - 1])
  {
    var walk: seq<string> := [];
    var current: Option<string> := Some(finish);
    while current.Some?
      invariant forall i :: 0 <= i < |walk| ==> walk[i] in visited && depth[walk[i]] + i == depth[finish]
      invariant |walk| > 0 ==> walk[0] == finish
      invariant forall i :: 0 <= i < |walk| - 1 ==> visited[walk[i]] == Some(walk[i + 1])
      invariant current.Some? ==> current.value in visited && depth[current.value] + |walk| == depth[finish]
      invariant current.Some? && |walk| == 0 ==> current.value == finish
      invariant |walk| > 0 ==> visited[walk[|walk| - 1]] == current
      invariant current.None? ==> |walk| > 0
      decreases if current.Some? then depth[current.value] + 1 else 0
    {
      walk := walk + [current.value];
      current := visited[current.value];
    }
    var root := walk[|walk| - 1];
    assert visited[root] == None && depth[root] == 0;
    chain := Reverse(walk);
  }

  // ---------------------------------------------------------------------
  // Breadth-first search
  // ---------------------------------------------------------------------

  /** No link leaves `pages`. */
  ghost predicate ClosedUnder(g: Graph, pages: set<string>) {
    forall u, v :: u in pages && Edge(g, u, v) ==> v in pages
  }

  /**
   * The search state recorded so far: parents form a forest whose only
   * root is `start` at depth 0, and every parent link is a link.
   */
  ghost predicate DiscoveryTree(g: Graph, start: string, visited: map<string, Option<string>>, depth: map<string, nat>) {
    ParentForest(visited, depth)
    && start in visited && visited[start] == None
    && forall k {:trigger visited[k]} :: k in visited && k != start ==> visited[k].Some? && Edge(g, visited[k].value, k)
  }

  /** Every link of a page of depth below `d` is recorded, at most one level deeper. */
  ghost predicate ExpandedBelow(g: Graph, visited: map<string, Option<string>>, depth: map<string, nat>, d: nat)
    requires visited.Keys == depth.Keys
  {
    forall u, v :: u in visited && depth[u] < d && Edge(g, u, v) ==> v in visited && depth[v] <= depth[u] + 1
  }

  /**
   * When every page shallower than `d` has been expanded, every path of at
   * most `d` links from `start` ends at a recorded page no deeper than the
   * path is long.
   */
  lemma {:induction false} PathsStayRecorded(g: Graph, start: string, visited: map<string, Option<string>>,
                                             depth: map<string, nat>, d: nat, p: seq<string>)
    requires visited.Keys == depth.Keys && start in visited && depth[start] == 0
    requires ExpandedBelow(g, visited, depth, d)
    requires IsPath(g, p) && p[0] == start && |p| <= d + 1
    ensures p[|p| - 1] in visited && depth[p[|p| - 1]] <= |p| - 1
    decreases |p|
  {
    if |p| > 1 {
      var init := p[..|p| - 1];
      assert IsPath(g, init) by {
        forall i | 0 <= i < |init| - 1 ensures Edge(g, init[i], init[i + 1]) {
          assert Edge(g, p[i], p[i + 1]);
        }
      }
      PathsStayRecorded(g, start, visited, depth, d, init);
      assert Edge(g, p[|p| - 2], p[|p| - 1]);
    }
  }

  /** No recorded page matches the target. */
  ghost predicate NoneMatch(visited: map<string, Option<string>>, finish: string) {
    forall k :: k in visited ==> !SameIgnoringCase(k, finish)
  }

  /**
   * `inserted` logs the keys put into `visited`, in order: as many entries
   * as keys, so each key once. The queue is first-in first-out, so the log
   * is the downloaded pages followed by the queue.
   */
  ghost predicate InsertionLog(visited: map<string, Option<string>>, queue: seq<string>, fetched: seq<string>,
                               inserted: seq<string>, start: string) {
    && inserted == fetched + queue
    && |inserted| > 0 && inserted[0] == start
    && |visited| == |inserted|
    && (forall k :: k in visited <==> k in inserted)
  }

  /**
   * The queue holds pages of depth `level` (its first `split` entries)
   * followed by pages of depth `level + 1`; downloaded pages are no deeper
   * than `level` and recorded ones no deeper than `level + 1`.
   */
  ghost predicate Levels(visited: map<string, Option<string>>, depth: map<string, nat>, queue: seq<string>,
                         fetched: seq<string>, level: nat, split: nat) {
    && split <= |queue|
    && (forall i :: 0 <= i < |queue| ==> queue[i] in depth && depth[queue[i]] == if i < split then level else level + 1)
    && (forall k :: k in fetched ==> k in depth && depth[k] <= level)
    && (forall k :: k in visited ==> k in depth && depth[k] <= level + 1)
  }

  /** What holds of the search state between two steps of `find_chain`. */
  ghost predicate SearchInvariant(g: Graph, start: string, finish: string, universe: set<string>,
                                  visited: map<string, Option<string>>, depth: map<string, nat>,
                                  queue: seq<string>, fetched: seq<string>, inserted: seq<string>,
                                  level: nat, split: nat)
  {
    && DiscoveryTree(g, start, visited, depth)
    && visited.Keys <= universe
    && NoneMatch(visited, finish)
    && InsertionLog(visited, queue, fetched, inserted, start)
    && Levels(visited, depth, queue, fetched, level, split)
  }

  /** Every downloaded page other than `pending` has all its links recorded, at most one level deeper. */
  ghost predicate Expanded(g: Graph, visited: map<string, Option<string>>, depth: map<string, nat>,
                           fetched: seq<string>, pending: Option<string>)
    requires visited.Keys == depth.Keys
  {
    forall u, v :: u in fetched && u in visited && Some(u) != pending && Edge(g, u, v) ==> v in visited && depth[v] <= depth[u] + 1
  }

  lemma DequeueLog(visited: map<string, Option<string>>, queue: seq<string>, fetched: seq<string>,
                   inserted: seq<string>, start: string)
    requires InsertionLog(visited, queue, fetched, inserted, start) && queue != []
    ensures queue[0] in visited
    ensures InsertionLog(visited, queue[1..], fetched + [queue[0]], inserted, start)
  {
    ShiftHead(fetched, queue);
    assert inserted[|fetched|] == queue[0];
  }

  lemma DequeueLevels(visited: map<string, Option<string>>, depth: map<string, nat>, queue: seq<string>,
                      fetched: seq<string>, level: nat, split: nat)
    requires Levels(visited, depth, queue, fetched, level, split) && queue != []
    ensures depth[queue[0]] == if split > 0 then level else level + 1
    ensures Levels(visited, depth, queue[1..], fetched + [queue[0]], depth[queue[0]],
                   if split > 0 then split - 1 else |queue| - 1)
  {
    var split' := if split > 0 then split - 1 else |queue| - 1;
    forall i | 0 <= i < |queue[1..]|
      ensures queue[1..][i] in depth && depth[queue[1..][i]] == if i < split' then depth[queue[0]] else depth[queue[0]] + 1
    {
      assert queue[1..][i] == queue[i + 1];
    }
  }

  lemma DequeueExpanded(g: Graph, visited: map<string, Option<string>>, depth: map<string, nat>,
                        fetched: seq<string>, current: string)
    requires visited.Keys == depth.Keys
    requires Expanded(g, visited, depth, fetched, None)
    ensures Expanded(g, visited, depth, fetched + [current], Some(current))
  {
  }

  /** Taking the head of the queue: it becomes the page being expanded, and the level moves to its depth. */
  lemma Dequeue(g: Graph, start: string, finish: string, universe: set<string>,
                visited: map<string, Option<string>>, depth: map<string, nat>,
                queue: seq<string>, fetched: seq<string>, inserted: seq<string>, level: nat, split: nat)
    requires SearchInvariant(g, start, finish, universe, visited, depth, queue, fetched, inserted, level, split)
    requires Expanded(g, visited, depth, fetched, None)
    requires queue != []
    ensures queue[0] in visited
    ensures depth[queue[0]] == if split > 0 then level else level + 1
    ensures SearchInvariant(g, start, finish, universe, visited, depth, queue[1..], fetched + [queue[0]], inserted,
                            depth[queue[0]], if split > 0 then split - 1 else |queue| - 1)
    ensures Expanded(g, visited, depth, fetched + [queue[0]], Some(queue[0]))
  {
    DequeueLog(visited, queue, fetched, inserted, start);
    DequeueLevels(visited, depth, queue, fetched, level, split);
    DequeueExpanded(g, visited, depth, fetched, queue[0]);
  }

  /** The downloaded pages, a prefix of the insertion log, are distinct. */
  lemma FetchLogDistinct(visited: map<string, Option<string>>, queue: seq<string>, fetched: seq<string>,
                         inserted: seq<string>, start: string)
    requires InsertionLog(visited, queue, fetched, inserted, start)
    ensures NoDuplicates(inserted) && NoDuplicates(fetched)
  {
    DistinctByCount(inserted, visited.Keys);
    NoDuplicatesPrefix(fetched, queue);
  }

  lemma RecordTree(g: Graph, start: string, visited: map<string, Option<string>>, depth: map<string, nat>,
                   current: string, link: string, level: nat)
    requires DiscoveryTree(g, start, visited, depth)
    requires current in visited && depth[current] == level && link !in visited && Edge(g, current, link)
    ensures DiscoveryTree(g, start, visited[link := Some(current)], depth[link := level + 1])
  {
  }

  lemma RecordLog(visited: map<string, Option<string>>, queue: seq<string>, fetched: seq<string>,
                  inserted: seq<string>, start: string, current: string, link: string)
    requires InsertionLog(visited, queue, fetched, inserted, start) && link !in visited
    ensures InsertionLog(visited[link := Some(current)], queue + [link], fetched, inserted + [link], start)
  {
    assert fetched + (queue + [link]) == inserted + [link];
  }

  lemma RecordLevels(visited: map<string, Option<string>>, depth: map<string, nat>, queue: seq<string>,
                     fetched: seq<string>, level: nat, split: nat, current: string, link: string)
    requires Levels(visited, depth, queue, fetched, level, split) && link !in depth
    ensures Levels(visited[link := Some(current)], depth[link := level + 1], queue + [link], fetched, level, split)
  {
    var queue', depth' := queue + [link], depth[link := level + 1];
    forall i | 0 <= i < |queue'|
      ensures queue'[i] in depth' && depth'[queue'[i]] == if i < split then level else level + 1
    {
      if i < |queue| {
        assert queue'[i] == queue[i];
      }
    }
  }

  lemma RecordExpanded(g: Graph, visited: map<string, Option<string>>, depth: map<string, nat>,
                       fetched: seq<string>, current: string, link: string, d: nat)
    requires visited.Keys == depth.Keys && link !in visited && link !in fetched
    requires Expanded(g, visited, depth, fetched, Some(current))
    ensures Expanded(g, visited[link := Some(current)], depth[link := d], fetched, Some(current))
  {
    var visited', depth' := visited[link := Some(current)], depth[link := d];
    forall u, v | u in fetched && u in visited' && Some(u) != Some(current) && Edge(g, u, v)
      ensures v in visited' && depth'[v] <= depth'[u] + 1
    {
      assert u in visited && v in visited;
      assert u != link && v != link;
    }
  }

  /** Recording a new, non-matching link of `current` keeps the invariant. */
  lemma RecordLink(g: Graph, start: string, finish: string, universe: set<string>,
                   visited: map<string, Option<string>>, depth: map<string, nat>,
                   queue: seq<string>, fetched: seq<string>, inserted: seq<string>, level: nat, split: nat,
                   current: string, link: string)
    requires SearchInvariant(g, start, finish, universe, visited, depth, queue, fetched, inserted, level, split)
    requires Expanded(g, visited, depth, fetched, Some(current))
    requires current in visited && depth[current] == level
    requires link !in visited && Edge(g, current, link) && !SameIgnoringCase(link, finish) && link in universe
    ensures SearchInvariant(g, start, finish, universe, visited[link := Some(current)], depth[link := level + 1],
                            queue + [link], fetched, inserted + [link], level, split)
    ensures Expanded(g, visited[link := Some(current)], depth[link := level + 1], fetched, Some(current))
  {
    RecordTree(g, start, visited, depth, current, link, level);
    RecordLog(visited, queue, fetched, inserted, start, current, link);
    RecordLevels(visited, depth, queue, fetched, level, split, current, link);
    assert link !in fetched + queue;
    RecordExpanded(g, visited, depth, fetched, current, link, level + 1);
  }

  /** Recording the matching link, once no chain of `level + 1` pages exists, reaches the found state. */
  lemma FoundLink(g: Graph, start: string, finish: string,
                  visited: map<string, Option<string>>, depth: map<string, nat>,
                  queue: seq<string>, fetched: seq<string>, inserted: seq<string>,
                  current: string, link: string, level: nat)
    requires DiscoveryTree(g, start, visited, depth) && NoneMatch(visited, finish)
    requires InsertionLog(visited, queue, fetched, inserted, start)
    requires current in visited && depth[current] == level
    requires Edge(g, current, link) && SameIgnoringCase(link, finish)
    requires forall p :: IsChain(g, p, start, finish) ==> level + 2 <= |p|
    ensures Found(g, start, finish, visited[link := Some(current)], depth[link := level + 1], inserted + [link], link)
  {
    assert link !in visited;
    RecordTree(g, start, visited, depth, current, link, level);
    var depth' := depth[link := level + 1];
    assert depth'[link] + 1 == level + 2;
  }

  /** Once every link of `current` is recorded, all downloaded pages are expanded. */
  lemma FinishExpansion(g: Graph, visited: map<string, Option<string>>, depth: map<string, nat>,
                        fetched: seq<string>, current: string, level: nat)
    requires visited.Keys == depth.Keys
    requires Expanded(g, visited, depth, fetched, Some(current))
    requires current in visited && depth[current] == level
    requires forall k :: k in visited ==> depth[k] <= level + 1
    requires forall v :: Edge(g, current, v) ==> v in visited
    ensures Expanded(g, visited, depth, fetched, None)
  {
  }

  /** A sequence of pages linked by parent links from the root is a path of links from `start`. */
  lemma ParentChainIsPath(g: Graph, start: string, visited: map<string, Option<string>>,
                          depth: map<string, nat>, c: seq<string>)
    requires DiscoveryTree(g, start, visited, depth)
    requires |c| > 0 && forall i :: 0 <= i < |c| ==> c[i] in visited
    requires visited[c[0]] == None
    requires forall i :: 0 < i < |c| ==> visited[c[i]] == Some(c[i - 1])
    ensures IsPath(g, c) && c[0] == start
  {
    forall i | 0 <= i < |c| - 1 ensures Edge(g, c[i], c[i + 1]) {
      assert visited[c[i + 1]] == Some(c[i]);
    }
  }

  /**
   * The moment the target is met among the links of `current` (at depth
   * `level`), no chain of at most `level + 1` pages exists: every page
   * shallower than `level` has been expanded, so such a chain would end at a
   * recorded page, and no recorded page matches the target.
   */
  lemma ChainIsShortest(g: Graph, start: string, finish: string, universe: set<string>,
                        visited: map<string, Option<string>>, depth: map<string, nat>,
                        queue: seq<string>, fetched: seq<string>, inserted: seq<string>, level: nat, split: nat,
                        current: string)
    requires SearchInvariant(g, start, finish, universe, visited, depth, queue, fetched, inserted, level, split)
    requires Expanded(g, visited, depth, fetched, Some(current))
    requires current in visited && depth[current] == level
    ensures forall p :: IsChain(g, p, start, finish) ==> level + 2 <= |p|
  {
    assert ExpandedBelow(g, visited, depth, level) by {
      forall u, v | u in visited && depth[u] < level && Edge(g, u, v)
        ensures v in visited && depth[v] <= depth[u] + 1
      {
        forall i | 0 <= i < |queue| ensures queue[i] != u {
        }
        assert u in fetched + queue;
      }
    }
    forall p | IsChain(g, p, start, finish) ensures level + 2 <= |p| {
      if |p| <= level + 1 {
        PathsStayRecorded(g, start, visited, depth, level, p);
      }
    }
  }

  /**
   * The state part-way through the links of `current`: the search invariant
   * holds, every downloaded page but `current` is expanded, and the first
   * `i` links of `current` are recorded.
   */
  ghost predicate Expanding(g: Graph, start: string, finish: string, universe: set<string>,
                            visited: map<string, Option<string>>, depth: map<string, nat>,
                            queue: seq<string>, fetched: seq<string>, inserted: seq<string>, level: nat, split: nat,
                            current: string, links: seq<string>, i: nat)
  {
    && i <= |links|
    && SearchInvariant(g, start, finish, universe, visited, depth, queue, fetched, inserted, level, split)
    && Expanded(g, visited, depth, fetched, Some(current))
    && current in fetched && current in depth && depth[current] == level
    && forall j :: 0 <= j < i ==> links[j] in visited
  }

  /**
   * The state when the target has been met at `link`: the discovery tree
   * holds, `link` is recorded and matches, no chain is shorter than its
   * depth plus one, and the insertion log counts the keys.
   */
  ghost predicate Found(g: Graph, start: string, finish: string,
                        visited: map<string, Option<string>>, depth: map<string, nat>,
                        inserted: seq<string>, link: string)
  {
    && DiscoveryTree(g, start, visited, depth)
    && link in visited && SameIgnoringCase(link, finish)
    && (forall p :: IsChain(g, p, start, finish) ==> depth[link] + 1 <= |p|)
    && |visited| == |inserted| && |inserted| > 0 && inserted[0] == start
    && (forall k :: k in visited <==> k in inserted)
  }

  /**
   * One pass of the inner loop of `find_chain` over the links of `current`:
   * a link matching the target is recorded with `current` as its parent and
   * ends the search; a link not yet recorded is recorded the same way and
   * queued; a recorded link is skipped.
   */
  method VisitLink(ghost g: Graph, start: string, finish: string, ghost universe: set<string>,
                   current: string, links: seq<string>, i: nat,
                   visited0: map<string, Option<string>>, queue0: seq<string>, ghost depth0: map<string, nat>,
                   ghost fetched: seq<string>, ghost inserted0: seq<string>, ghost level: nat, ghost split: nat)
    returns (matched: bool, visited: map<string, Option<string>>, queue: seq<string>,
             ghost depth: map<string, nat>, ghost inserted: seq<string>)
    requires Expanding(g, start, finish, universe, visited0, depth0, queue0, fetched, inserted0, level, split, current, links, i)
    requires i < |links| && ClosedUnder(g, universe) && Edge(g, current, links[i])
    ensures matched <==> SameIgnoringCase(links[i], finish)
    ensures matched ==> links[i] !in visited0
    ensures visited == if links[i] in visited0 then visited0 else visited0[links[i] := Some(current)]
    ensures queue == if links[i] in visited0 || matched then queue0 else queue0 + [links[i]]
    ensures matched ==> Found(g, start, finish, visited, depth, inserted, links[i])
    ensures !matched ==> Expanding(g, start, finish, universe, visited, depth, queue, fetched, inserted, level, split, current, links, i + 1)
  {
    var link := links[i];
    if SameIgnoringCase(link, finish) {
      FoundStep(g, start, finish, universe, visited0, depth0, queue0, fetched, inserted0, level, split, current, links, i);
      return true, visited0[link := Some(current)], queue0, depth0[link := level + 1], inserted0 + [link];
    }
    if link !in visited0 {
      AdvanceNew(g, start, finish, universe, visited0, depth0, queue0, fetched, inserted0, level, split, current, links, i);
      return false, visited0[link := Some(current)], queue0 + [link], depth0[link := level + 1], inserted0 + [link];
    }
    AdvanceRecorded(g, start, finish, universe, visited0, depth0, queue0, fetched, inserted0, level, split, current, links, i);
    return false, visited0, queue0, depth0, inserted0;
  }

  /** The first `i + 1` links are recorded once the first `i` were and the next one is. */
  lemma Covered(links: seq<string>, i: nat, visited: map<string, Option<string>>, visited': map<string, Option<string>>)
    requires i < |links| && links[i] in visited'
    requires forall j :: 0 <= j < i ==> links[j] in visited
    requires forall k :: k in visited ==> k in visited'
    ensures forall j :: 0 <= j < i + 1 ==> links[j] in visited'
  {
    forall j | 0 <= j < i + 1 ensures links[j] in visited' {
      if j < i {
        assert links[j] in visited;
      }
    }
  }

  /** A link already recorded is skipped. */
  lemma AdvanceRecorded(g: Graph, start: string, finish: string, universe: set<string>,
                        visited: map<string, Option<string>>, depth: map<string, nat>,
                        queue: seq<string>, fetched: seq<string>, inserted: seq<string>, level: nat, split: nat,
                        current: string, links: seq<string>, i: nat)
    requires Expanding(g, start, finish, universe, visited, depth, queue, fetched, inserted, level, split, current, links, i)
    requires i < |links| && links[i] in visited
    ensures Expanding(g, start, finish, universe, visited, depth, queue, fetched, inserted, level, split, current, links, i + 1)
  {
    Covered(links, i, visited, visited);
  }

  /** A new, non-matching link is recorded under `current` and queued. */
  lemma AdvanceNew(g: Graph, start: string, finish: string, universe: set<string>,
                   visited: map<string, Option<string>>, depth: map<string, nat>,
                   queue: seq<string>, fetched: seq<string>, inserted: seq<string>, level: nat, split: nat,
                   current: string, links: seq<string>, i: nat)
    requires Expanding(g, start, finish, universe, visited, depth, queue, fetched, inserted, level, split, current, links, i)
    requires i < |links| && links[i] !in visited && !SameIgnoringCase(links[i], finish)
    requires ClosedUnder(g, universe) && Edge(g, current, links[i])
    ensures Expanding(g, start, finish, universe, visited[links[i] := Some(current)], depth[links[i] := level + 1],
                      queue + [links[i]], fetched, inserted + [links[i]], level, split, current, links, i + 1)
  {
    var link := links[i];
    assert current in visited;
    assert link in universe;
    RecordLink(g, start, finish, universe, visited, depth, queue, fetched, inserted, level, split, current, link);
    Covered(links, i, visited, visited[link := Some(current)]);
  }

  /** A matching link is recorded under `current`, one level deeper, and no chain is shorter. */
  lemma FoundStep(g: Graph, start: string, finish: string, universe: set<string>,
                  visited: map<string, Option<string>>, depth: map<string, nat>,
                  queue: seq<string>, fetched: seq<string>, inserted: seq<string>, level: nat, split: nat,
                  current: string, links: seq<string>, i: nat)
    requires Expanding(g, start, finish, universe, visited, depth, queue, fetched, inserted, level, split, current, links, i)
    requires i < |links| && Edge(g, current, links[i]) && SameIgnoringCase(links[i], finish)
    ensures links[i] !in visited
    ensures Found(g, start, finish, visited[links[i] := Some(current)], depth[links[i] := level + 1],
                  inserted + [links[i]], links[i])
  {
    assert current in visited;
    ChainIsShortest(g, start, finish, universe, visited, depth, queue, fetched, inserted, level, split, current);
    FoundLink(g, start, finish, visited, depth, queue, fetched, inserted, current, links[i], level);
  }

  /**
   * `visited` after the inner loop has gone through `links` without a
   * match: each link not yet recorded is recorded with `current` as its
   * parent.
   */
  function Recorded(visited: map<string, Option<string>>, current: string, links: seq<string>): map<string, Option<string>>
    decreases |links|
  {
    if links == [] then visited
    else
      var m, last := Recorded(visited, current, links[..|links| - 1]), links[|links| - 1];
      if last in m then m else m[last := Some(current)]
  }

  /** The links not in `seen`, each at its first occurrence, in order: what the inner loop queues. */
  function NewLinks(links: seq<string>, seen: set<string>): seq<string>
    decreases |links|
  {
    if links == [] then []
    else
      var init, last := links[..|links| - 1], links[|links| - 1];
      NewLinks(init, seen) + if last in seen || last in init then [] else [last]
  }

  /**
   * Recording the links adds exactly those links to `visited`, keeps every
   * parent already recorded, and gives each new page `current` as parent.
   */
  lemma {:induction false} RecordEffect(visited: map<string, Option<string>>, current: string, links: seq<string>)
    ensures forall n :: n in Recorded(visited, current, links) <==> n in visited || n in links
    ensures forall n :: n in visited ==> Recorded(visited, current, links)[n] == visited[n]
    ensures forall n :: n in Recorded(visited, current, links) && n !in visited ==> Recorded(visited, current, links)[n] == Some(current)
    decreases |links|
  {
    if links != [] {
      var init := links[..|links| - 1];
      RecordEffect(visited, current, init);
      assert links == init + [links[|links| - 1]];
    }
  }

  /** The queued links are the links not in `seen`, without repeats. */
  lemma {:induction false} NewLinksEffect(links: seq<string>, seen: set<string>)
    ensures forall n :: n in NewLinks(links, seen) <==> n in links && n !in seen
    ensures NoDuplicates(NewLinks(links, seen))
    decreases |links|
  {
    if links != [] {
      var init, last := links[..|links| - 1], links[|links| - 1];
      NewLinksEffect(init, seen);
      assert links == init + [last];
      var r := NewLinks(links, seen);
      forall i, j | 0 <= i < j < |r| ensures r[i] != r[j] {
        if j == |r| - 1 && |r| > |NewLinks(init, seen)| {
          assert r[i] in NewLinks(init, seen);
        }
      }
    }
  }

  /**
   * One pass of the inner loop, as `VisitLink` states it: `visited` is
   * recorded one link further, and the link is queued unless it was
   * recorded before or matches.
   */
  lemma RecordStep(current: string, links: seq<string>, i: nat,
                   visited0: map<string, Option<string>>, queue0: seq<string>,
                   visited: map<string, Option<string>>, queue: seq<string>,
                   matched: bool, visited': map<string, Option<string>>, queue': seq<string>)
    requires i < |links|
    requires visited == Recorded(visited0, current, links[..i]) && queue == queue0 + NewLinks(links[..i], visited0.Keys)
    requires visited' == if links[i] in visited then visited else visited[links[i] := Some(current)]
    requires queue' == if links[i] in visited || matched then queue else queue + [links[i]]
    ensures visited' == Recorded(visited0, current, links[..i + 1])
    ensures !matched ==> queue' == queue0 + NewLinks(links[..i + 1], visited0.Keys)
  {
    assert links[..i + 1][..i] == links[..i];
    RecordEffect(visited0, current, links[..i]);
    assert links[i] in visited <==> links[i] in visited0.Keys || links[i] in links[..i];
  }

  /**
   * The inner loop of `find_chain`: the links of `current` in order, until
   * one matches the target.
   */
  method ExpandPage(ghost g: Graph, start: string, finish: string, ghost universe: set<string>,
                    current: string, links: seq<string>,
                    visited0: map<string, Option<string>>, queue0: seq<string>, ghost depth0: map<string, nat>,
                    ghost fetched: seq<string>, ghost inserted0: seq<string>, ghost level: nat, ghost split: nat)
    returns (found: Option<string>, visited: map<string, Option<string>>, queue: seq<string>,
             ghost depth: map<string, nat>, ghost inserted: seq<string>, ghost at: nat)
    requires Expanding(g, start, finish, universe, visited0, depth0, queue0, fetched, inserted0, level, split, current, links, 0)
    requires ClosedUnder(g, universe)
    requires forall v :: Edge(g, current, v) <==> v in links
    ensures found.None? ==> visited == Recorded(visited0, current, links)
    ensures found.None? ==> queue == queue0 + NewLinks(links, visited0.Keys)
    ensures found.None? ==> forall j :: 0 <= j < |links| ==> !SameIgnoringCase(links[j], finish)
    ensures found.Some? ==> at < |links| && links[at] == found.value
    ensures found.Some? ==> visited == Recorded(visited0, current, links[..at + 1])
    ensures found.Some? ==> queue == queue0 + NewLinks(links[..at], visited0.Keys)
    ensures found.Some? ==> forall j :: 0 <= j < at ==> !SameIgnoringCase(links[j], finish)
    ensures found.None? ==> SearchInvariant(g, start, finish, universe, visited, depth, queue, fetched, inserted, level, split)
    ensures found.None? ==> Expanded(g, visited, depth, fetched, None)
    ensures found.Some? ==> Found(g, start, finish, visited, depth, inserted, found.value)
  {
    visited, queue, depth, inserted := visited0, queue0, depth0, inserted0;
    assert links[..0] == [];
    for i := 0 to |links|
      invariant Expanding(g, start, finish, universe, visited, depth, queue, fetched, inserted, level, split, current, links, i)
      invariant visited == Recorded(visited0, current, links[..i])
      invariant queue == queue0 + NewLinks(links[..i], visited0.Keys)
      invariant forall j :: 0 <= j < i ==> !SameIgnoringCase(links[j], finish)
    {
      var matched, visited', queue';
      matched, visited', queue', depth, inserted :=
        VisitLink(g, start, finish, universe, current, links, i, visited, queue, depth, fetched, inserted, level, split);
      RecordStep(current, links, i, visited0, queue0, visited, queue, matched, visited', queue');
      if matched {
        return Some(links[i]), visited', queue', depth, inserted, i;
      }
      visited, queue := visited', queue';
    }
    assert links[..|links|] == links;
    FinishPage(g, start, finish, universe, visited, depth, queue, fetched, inserted, level, split, current, links);
    return None, visited, queue, depth, inserted, 0;
  }

  /** Once every link of `current` is recorded, all downloaded pages are expanded. */
  lemma FinishPage(g: Graph, start: string, finish: string, universe: set<string>,
                   visited: map<string, Option<string>>, depth: map<string, nat>,
                   queue: seq<string>, fetched: seq<string>, inserted: seq<string>, level: nat, split: nat,
                   current: string, links: seq<string>)
    requires Expanding(g, start, finish, universe, visited, depth, queue, fetched, inserted, level, split, current, links, |links|)
    requires forall v :: Edge(g, current, v) <==> v in links
    ensures SearchInvariant(g, start, finish, universe, visited, depth, queue, fetched, inserted, level, split)
    ensures Expanded(g, visited, depth, fetched, None)
  {
    forall v | Edge(g, current, v) ensures v in visited {
      var j :| 0 <= j < |links| && links[j] == v;
    }
    FinishExpansion(g, visited, depth, fetched, current, level);
  }

  /** The state `find_chain` starts from: only `start` recorded and queued, nothing downloaded. */
  lemma SearchStarts(g: Graph, start: string, finish: string, universe: set<string>)
    requires start in universe && !SameIgnoringCase(start, finish)
    ensures SearchInvariant(g, start, finish, universe, map[start := None], map[start := 0], [start], [], [start], 0, 1)
    ensures Expanded(g, map[start := None], map[start := 0], [], None)
  {
  }

  /** The chain walked back from the found page is a shortest chain, and the insertion log has no repeats. */
  lemma FoundChain(g: Graph, start: string, finish: string, visited: map<string, Option<string>>,
                   depth: map<string, nat>, inserted: seq<string>, link: string, c: seq<string>)
    requires Found(g, start, finish, visited, depth, inserted, link)
    requires |c| == depth[link] + 1 && c[|c| - 1] == link
    requires forall i :: 0 <= i < |c| ==> c[i] in visited
    requires visited[c[0]] == None
    requires forall i :: 0 < i < |c| ==> visited[c[i]] == Some(c[i - 1])
    ensures IsChain(g, c, start, finish)
    ensures forall p :: IsChain(g, p, start, finish) ==> |c| <= |p|
    ensures NoDuplicates(inserted)
  {
    ParentChainIsPath(g, start, visited, depth, c);
    DistinctByCount(inserted, visited.Keys);
  }

  /**
   * When the queue runs empty, every page reachable from `start` has been
   * downloaded, so none matches the target; the logs are free of repeats.
   */
  lemma SearchExhausted(g: Graph, start: string, finish: string, universe: set<string>,
                        visited: map<string, Option<string>>, depth: map<string, nat>,
                        fetched: seq<string>, inserted: seq<string>, level: nat, split: nat)
    requires SearchInvariant(g, start, finish, universe, visited, depth, [], fetched, inserted, level, split)
    requires Expanded(g, visited, depth, fetched, None)
    ensures forall p :: IsPath(g, p) && p[0] == start ==> p[|p| - 1] in fetched && !SameIgnoringCase(p[|p| - 1], finish)
    ensures NoDuplicates(fetched) && NoDuplicates(inserted)
  {
    FetchLogDistinct(visited, [], fetched, inserted, start);
    assert inserted == fetched;
    forall p | IsPath(g, p) && p[0] == start
      ensures p[|p| - 1] in fetched && !SameIgnoringCase(p[|p| - 1], finish)
    {
      PathsStayRecorded(g, start, visited, depth, |p|, p);
    }
  }

  /**
   * `find_chain`. `universe` is a finite set of pages closed under links
   * that holds `start`; it only serves to prove that the search ends.
   * Besides the chain, the ghost results log the pages downloaded and the
   * keys inserted into `visited`, in order.
   */
  method FindChain(w: Web, start: string, finish: string, ghost universe: set<string>)
    returns (chain: Option<seq<string>>, ghost fetched: seq<string>, ghost inserted: seq<string>)
    requires start in universe && ClosedUnder(LinkGraph(w), universe)
    ensures SameIgnoringCase(start, finish) ==> chain == Some([start]) && fetched == [] && inserted == []
    ensures chain.Some? ==> IsChain(LinkGraph(w), chain.value, start, finish)
    ensures chain.Some? ==> forall p :: IsChain(LinkGraph(w), p, start, finish) ==> |chain.value| <= |p|
    ensures chain.None? ==> forall p :: !IsChain(LinkGraph(w), p, start, finish)
    ensures chain.None? ==> forall p :: IsPath(LinkGraph(w), p) && p[0] == start ==> p[|p| - 1] in fetched
    ensures NoDuplicates(fetched) && NoDuplicates(inserted)
    ensures !SameIgnoringCase(start, finish) ==> |inserted| > 0 && inserted[0] == start
  {
    if SameIgnoringCase(start, finish) {
      return Some([start]), [], [];
    }
    ghost var g := LinkGraph(w);
    var queue := [start];
    var visited: map<string, Option<string>> := map[start := None];
    ghost var depth: map<string, nat> := map[start := 0];
    ghost var level: nat, split: nat := 0, 1;
    fetched, inserted := [], [start];
    SearchStarts(g, start, finish, universe);
    while queue != []
      invariant SearchInvariant(g, start, finish, universe, visited, depth, queue, fetched, inserted, level, split)
      invariant Expanded(g, visited, depth, fetched, None)
      decreases |universe| - |fetched|
    {
      Dequeue(g, start, finish, universe, visited, depth, queue, fetched, inserted, level, split);
      var current := queue[0];
      queue := queue[1..];
      fetched := fetched + [current];
      level, split := depth[current], if split > 0 then split - 1 else |queue|;
      FetchLogDistinct(visited, queue, fetched, inserted, start);
      DistinctBound(fetched, universe);
      var content := w.fetch(current);
      if content.None? {
        FinishExpansion(g, visited, depth, fetched, current, level);
        continue;
      }
      var window := ExtractContent(content);
      var links := ExtractLinks(content.value, window.0, window.1, w.anchors, w.unquote);
      ReadPage(w, current, content.value, links);
      var found;
      ghost var at;
      found, visited, queue, depth, inserted, at :=
        ExpandPage(g, start, finish, universe, current, links, visited, queue, depth, fetched, inserted, level, split);
      if found.Some? {
        var c := MakeChain(found.value, visited, depth);
        FoundChain(g, start, finish, visited, depth, inserted, found.value, c);
        return Some(c), fetched, inserted;
      }
    }
    SearchExhausted(g, start, finish, universe, visited, depth, fetched, inserted, level, split);
    return None, fetched, inserted;
  }

  /** The links `find_chain` reads off a downloaded page are exactly the page's edges. */
  lemma ReadPage(w: Web, page: string, content: string, links: seq<string>)
    requires w.fetch(page) == Some(content)
    requires forall n :: n in links <==> n in LinkSet(w.anchors(Slice(content, ExtractContent(Some(content)).0, ExtractContent(Some(content)).1)), w.unquote)
    ensures forall v :: Edge(LinkGraph(w), page, v) <==> v in links
  {
  }
}
