/** The two content endpoints. `api_generate_content` walks the outline in
    pre-order; for every node it generates an article, gives it a unique file
    name, writes a document, records the node's download link and appends the
    article to the page. It then lists every document in a zip archive.
    `api_generate_single_content` does the same for one node, without the
    registry of names. Article generation is the parameter `gen`. */
module GenerateContent {
  import opened PyStr
  import opened PosixPath
  import opened Models
  import opened Filenames
  import DocxService

  /** What one request fixes: its location, the article generator and the
      `str.isalnum` test used by the sanitiser. */
  datatype Env = Env(location: string, gen: (string, OutlineNode) -> string, isAlnum: char -> bool)

  /** The request's accumulators: the names handed out, the files written, the
      download link per node id and the page built so far. */
  datatype Acc = Acc(used: set<string>, files: seq<string>, downloads: map<string, string>, html: string)

  const Start := Acc({}, [], map[], "")

  /** The wrapper every article gets on the page, with an anchor for scrolling. */
  function Section(id: string, content: string): string {
    "<div id=\"node-" + id + "\" class=\"mb-8 scroll-mt-4\">\n" + content + "\n</div>\n"
  }

  /** The link to a written file, under the `/outputs` mount. */
  function DownloadUrl(path: string): string {
    "/outputs/" + Basename(path)
  }

  // ---------------------------------------------------------------------------
  // The outline in pre-order
  // ---------------------------------------------------------------------------

  /** The nodes of a forest in the order `traverse` reaches them: a node, then
      its subtrees in order, then the next sibling. */
  function PreOrder(nodes: seq<OutlineNode>): seq<OutlineNode> {
    if nodes == [] then [] else [nodes[0]] + PreOrder(nodes[0].children) + PreOrder(nodes[1..])
  }

  /** A node comes before everything below it. */
  lemma PreOrderSingle(n: OutlineNode)
    ensures PreOrder([n]) == [n] + PreOrder(n.children)
  {
    assert [n][1..] == [];
  }

  /** A forest's order is its first trees' order followed by the rest's: each
      subtree is finished before the next sibling starts. */
  lemma {:induction false} PreOrderAppend(a: seq<OutlineNode>, b: seq<OutlineNode>)
    ensures PreOrder(a + b) == PreOrder(a) + PreOrder(b)
    decreases |a|
  {
    if a == [] {
      assert a + b == b;
    } else {
      assert (a + b)[0] == a[0] && (a + b)[1..] == a[1..] + b;
      PreOrderAppend(a[1..], b);
      var head := [a[0]] + PreOrder(a[0].children);
      AppendAssoc(head, PreOrder(a[1..]), PreOrder(b));
    }
  }

  // ---------------------------------------------------------------------------
  // What one node does to the accumulators
  // ---------------------------------------------------------------------------

  /** One visit of `traverse`, before it recurses: generate the article,
      allocate a name, write the document, record the link, extend the page.
      The document is saved as `outputs/` and the name (AllocatedPath). */
  function Process(env: Env, acc: Acc, n: OutlineNode): Acc {
    var content := env.gen(env.location, n);
    var name := Allocate(acc.used, env.location, env.isAlnum, n.title);
    var path := Join(DocxService.OutputDir, name);
    Acc(acc.used + {name}, acc.files + [path], acc.downloads[n.id := DownloadUrl(path)],
        acc.html + Section(n.id, content))
  }

  /** Visits of the nodes in sequence, left to right. */
  function ProcessAll(env: Env, acc: Acc, nodes: seq<OutlineNode>): Acc
    decreases |nodes|
  {
    if nodes == [] then acc
    else Process(env, ProcessAll(env, acc, nodes[..|nodes| - 1]), nodes[|nodes| - 1])
  }

  lemma ProcessAllSnoc(env: Env, acc: Acc, nodes: seq<OutlineNode>, n: OutlineNode)
    ensures ProcessAll(env, acc, nodes + [n]) == Process(env, ProcessAll(env, acc, nodes), n)
  {
    assert (nodes + [n])[..|nodes|] == nodes;
  }

  /** Visiting a + b is visiting a, then b. */
  lemma {:induction false} ProcessAllAppend(env: Env, acc: Acc, a: seq<OutlineNode>, b: seq<OutlineNode>)
    ensures ProcessAll(env, acc, a + b) == ProcessAll(env, ProcessAll(env, acc, a), b)
    decreases |b|
  {
    if b == [] {
      assert a + b == a;
    } else {
      var b' := b[..|b| - 1];
      assert a + b == (a + b') + [b[|b| - 1]];
      ProcessAllAppend(env, acc, a, b');
      ProcessAllSnoc(env, acc, a + b', b[|b| - 1]);
    }
  }

  // ---------------------------------------------------------------------------
  // The page
  // ---------------------------------------------------------------------------

  /** The page for a list of nodes: their sections, one after the other. */
  function Sections(env: Env, nodes: seq<OutlineNode>): string {
    if nodes == [] then ""
    else Section(nodes[0].id, env.gen(env.location, nodes[0])) + Sections(env, nodes[1..])
  }

  lemma {:induction false} SectionsLast(env: Env, nodes: seq<OutlineNode>)
    requires nodes != []
    ensures var n := nodes[|nodes| - 1];
      Sections(env, nodes) == Sections(env, nodes[..|nodes| - 1]) + Section(n.id, env.gen(env.location, n))
    decreases |nodes|
  {
    var n := nodes[|nodes| - 1];
    var last := Section(n.id, env.gen(env.location, n));
    var init := nodes[..|nodes| - 1];
    if |nodes| == 1 {
      assert nodes[1..] == [] && init == [];
    } else {
      var head := Section(nodes[0].id, env.gen(env.location, nodes[0]));
      var tail := nodes[1..];
      SectionsLast(env, tail);
      assert tail[..|tail| - 1] == init[1..] && tail[|tail| - 1] == n;
      assert init[0] == nodes[0];
      AppendAssoc(head, Sections(env, init[1..]), last);
    }
  }

  /** The page grows by the wrapped article of every node visited, in visiting
      order, whatever names the files get. */
  lemma {:induction false} ProcessAllHtml(env: Env, acc: Acc, nodes: seq<OutlineNode>)
    ensures ProcessAll(env, acc, nodes).html == acc.html + Sections(env, nodes)
    decreases |nodes|
  {
    if nodes != [] {
      var init, n := nodes[..|nodes| - 1], nodes[|nodes| - 1];
      ProcessAllHtml(env, acc, init);
      SectionsLast(env, nodes);
      AppendAssoc(acc.html, Sections(env, init), Section(n.id, env.gen(env.location, n)));
    }
  }

  // ---------------------------------------------------------------------------
  // The files
  // ---------------------------------------------------------------------------

  predicate Distinct<T(==)>(s: seq<T>) {
    forall i, j :: 0 <= i < j < |s| ==> s[i] != s[j]
  }

  /** The paths of a set of file names under the output directory. */
  function Paths(used: set<string>): set<string> {
    set name | name in used :: Join(DocxService.OutputDir, name)
  }

  /** Every file written so far is different from the others and is the path
      of a name in the registry. */
  predicate FilesRegistered(acc: Acc) {
    Distinct(acc.files) && forall i :: 0 <= i < |acc.files| ==> acc.files[i] in Paths(acc.used)
  }

  /** f is the path of a name allocated for node n: its sanitised title with
      some counter. */
  ghost predicate FileFor(env: Env, n: OutlineNode, f: string) {
    exists k: nat :: f == Join(DocxService.OutputDir, Candidate(env.location, BaseLabel(env.isAlnum, n.title), k))
  }

  /** An allocated name is saved under `outputs/` as it is, since it already
      ends with `.docx`. */
  lemma AllocatedPath(env: Env, used: set<string>, title: string)
    ensures var name := Allocate(used, env.location, env.isAlnum, title);
      DocxService.DocxPath(env.location, title, Some(name)) == Join(DocxService.OutputDir, name)
  {
    var name := Allocate(used, env.location, env.isAlnum, title);
    AllocateShape(used, env.location, env.isAlnum, title);
    assert DocxService.DocxName(env.location, title, Some(name)) == name;
  }

  /** The path of a new name is not among the paths of the names in use. */
  lemma NewPathIsNew(used: set<string>, name: string)
    requires name !in used
    ensures Join(DocxService.OutputDir, name) !in Paths(used)
  {
    if Join(DocxService.OutputDir, name) in Paths(used) {
      var other :| other in used && Join(DocxService.OutputDir, other) == Join(DocxService.OutputDir, name);
      JoinInjective(DocxService.OutputDir, other, name);
    }
  }

  /** A visit keeps the files distinct and registered. */
  lemma ProcessKeepsFilesRegistered(env: Env, acc: Acc, n: OutlineNode)
    requires FilesRegistered(acc)
    ensures FilesRegistered(Process(env, acc, n))
  {
    var name := Allocate(acc.used, env.location, env.isAlnum, n.title);
    var path := Join(DocxService.OutputDir, name);
    AllocateFresh(acc.used, env.location, env.isAlnum, n.title, n.title);
    NewPathIsNew(acc.used, name);
    var r := Process(env, acc, n);
    assert r.files == acc.files + [path];
    assert Paths(acc.used) <= Paths(r.used);
    assert path in Paths(r.used);
  }

  /** Visits keep the files distinct and registered. */
  lemma {:induction false} ProcessAllKeepsFilesRegistered(env: Env, acc: Acc, nodes: seq<OutlineNode>)
    requires FilesRegistered(acc)
    ensures FilesRegistered(ProcessAll(env, acc, nodes))
    decreases |nodes|
  {
    if nodes != [] {
      ProcessAllKeepsFilesRegistered(env, acc, nodes[..|nodes| - 1]);
      ProcessKeepsFilesRegistered(env, ProcessAll(env, acc, nodes[..|nodes| - 1]), nodes[|nodes| - 1]);
    }
  }

  /** One file per node visited, in visiting order, each named after its node's
      title; the files already written stay as they were. */
  lemma {:induction false} ProcessAllFiles(env: Env, acc: Acc, nodes: seq<OutlineNode>)
    ensures FilesFor(env, acc, nodes, ProcessAll(env, acc, nodes))
    decreases |nodes|
  {
    if nodes != [] {
      var init, n := nodes[..|nodes| - 1], nodes[|nodes| - 1];
      var p := ProcessAll(env, acc, init);
      ProcessAllFiles(env, acc, init);
      ProcessFile(env, p, n);
      FilesForSnoc(env, acc, nodes, p, ProcessAll(env, acc, nodes));
    }
  }

  /** `FileFor` as a relation value, so that facts about positions can be
      moved around without looking inside it. */
  ghost function FileRel(env: Env): (OutlineNode, string) -> bool {
    (n, f) => FileFor(env, n, f)
  }

  /** xs[i] and ys[off + i] are related by rel at every position of xs. */
  ghost predicate Pointwise<A, B>(rel: (A, B) -> bool, xs: seq<A>, ys: seq<B>, off: nat)
    requires off + |xs| <= |ys|
  {
    forall i :: 0 <= i < |xs| ==> rel(xs[i], ys[off + i])
  }

  /** Extending both sides by one related pair keeps them related. */
  lemma PointwiseSnoc<A, B>(rel: (A, B) -> bool, xs: seq<A>, ps: seq<B>, rs: seq<B>, off: nat)
    requires xs != [] && off + |xs| == |ps| + 1 == |rs| && rs[..|ps|] == ps
    requires Pointwise(rel, xs[..|xs| - 1], ps, off)
    requires rel(xs[|xs| - 1], rs[|ps|])
    ensures Pointwise(rel, xs, rs, off)
  {
    forall i | 0 <= i < |xs|
      ensures rel(xs[i], rs[off + i])
    {
      if i < |xs| - 1 {
        assert rel(xs[..|xs| - 1][i], ps[off + i]);
        assert rs[off + i] == ps[off + i];
      }
    }
  }

  /** The files of r are those of acc, then one file for each of the nodes. */
  ghost predicate FilesFor(env: Env, acc: Acc, nodes: seq<OutlineNode>, r: Acc) {
    |r.files| == |acc.files| + |nodes| && r.files[..|acc.files|] == acc.files
    && Pointwise(FileRel(env), nodes, r.files, |acc.files|)
  }

  lemma FilesForSnoc(env: Env, acc: Acc, nodes: seq<OutlineNode>, p: Acc, r: Acc)
    requires nodes != [] && FilesFor(env, acc, nodes[..|nodes| - 1], p)
    requires |r.files| == |p.files| + 1 && r.files[..|p.files|] == p.files
    requires FileFor(env, nodes[|nodes| - 1], r.files[|p.files|])
    ensures FilesFor(env, acc, nodes, r)
  {
    assert FileRel(env)(nodes[|nodes| - 1], r.files[|p.files|]);
    PointwiseSnoc(FileRel(env), nodes, p.files, r.files, |acc.files|);
    assert r.files[..|acc.files|] == p.files[..|acc.files|];
  }

  lemma ProcessFile(env: Env, acc: Acc, n: OutlineNode)
    ensures var r := Process(env, acc, n);
      r.files[..|acc.files|] == acc.files && |r.files| == |acc.files| + 1 && FileFor(env, n, r.files[|acc.files|])
  {
    var base := BaseLabel(env.isAlnum, n.title);
    var k := FreeIndex(acc.used, env.location, base);
    var r := Process(env, acc, n);
    assert r.files[|acc.files|] == Join(DocxService.OutputDir, Candidate(env.location, base, k));
  }

  // ---------------------------------------------------------------------------
  // The download links
  // ---------------------------------------------------------------------------

  /** The ids of a list of nodes. */
  function Ids(nodes: seq<OutlineNode>): set<string> {
    if nodes == [] then {} else {nodes[0].id} + Ids(nodes[1..])
  }

  lemma {:induction false} IdsLast(nodes: seq<OutlineNode>)
    requires nodes != []
    ensures Ids(nodes) == Ids(nodes[..|nodes| - 1]) + {nodes[|nodes| - 1].id}
    decreases |nodes|
  {
    var init := nodes[..|nodes| - 1];
    if |nodes| == 1 {
      assert nodes[1..] == [] && init == [];
    } else {
      var tail := nodes[1..];
      IdsLast(tail);
      assert tail[..|tail| - 1] == init[1..] && tail[|tail| - 1] == nodes[|nodes| - 1];
      assert init[0] == nodes[0];
    }
  }

  /** An id is among the ids of a list exactly when some node of the list has it. */
  lemma {:induction false} IdsMember(nodes: seq<OutlineNode>, id: string)
    ensures id in Ids(nodes) <==> exists i :: 0 <= i < |nodes| && nodes[i].id == id
    decreases |nodes|
  {
    if nodes != [] {
      IdsMember(nodes[1..], id);
      if id in Ids(nodes[1..]) {
        var i :| 0 <= i < |nodes[1..]| && nodes[1..][i].id == id;
        assert nodes[i + 1].id == id;
      }
      if exists i :: 0 <= i < |nodes| && nodes[i].id == id {
        var i :| 0 <= i < |nodes| && nodes[i].id == id;
        if i > 0 {
          assert nodes[1..][i - 1].id == id;
        }
      }
    }
  }

  /** The links are keyed by exactly the ids of the nodes visited, on top of the
      keys there were: one entry per distinct id. */
  lemma {:induction false} ProcessAllKeys(env: Env, acc: Acc, nodes: seq<OutlineNode>)
    ensures ProcessAll(env, acc, nodes).downloads.Keys == acc.downloads.Keys + Ids(nodes)
    decreases |nodes|
  {
    if nodes != [] {
      var init, n := nodes[..|nodes| - 1], nodes[|nodes| - 1];
      ProcessAllKeys(env, acc, init);
      IdsLast(nodes);
    }
  }

  /** A node's link points at its own file unless a later node has the same id,
      whose link then replaces it. */
  lemma {:induction false} ProcessAllLinks(env: Env, acc: Acc, nodes: seq<OutlineNode>, i: nat)
    requires i < |nodes|
    requires forall j :: i < j < |nodes| ==> nodes[j].id != nodes[i].id
    ensures var r := ProcessAll(env, acc, nodes);
      |acc.files| + i < |r.files| && nodes[i].id in r.downloads
      && r.downloads[nodes[i].id] == DownloadUrl(r.files[|acc.files| + i])
    decreases |nodes|
  {
    var init, n := nodes[..|nodes| - 1], nodes[|nodes| - 1];
    var p, r := ProcessAll(env, acc, init), ProcessAll(env, acc, nodes);
    ProcessAllFiles(env, acc, init);
    if i < |init| {
      ProcessAllLinks(env, acc, init, i);
      assert init[i] == nodes[i];
      assert r.files[|acc.files| + i] == p.files[|acc.files| + i];
    }
  }

  // ---------------------------------------------------------------------------
  // What a whole request produces
  // ---------------------------------------------------------------------------

  /** Node i is the last node of the list with its id. */
  predicate LastWithId(nodes: seq<OutlineNode>, i: nat)
    requires i < |nodes|
  {
    forall j :: i < j < |nodes| ==> nodes[j].id != nodes[i].id
  }

  /** One file per node, at the same position, each named after its node. */
  ghost predicate NamedAfter(env: Env, nodes: seq<OutlineNode>, files: seq<string>) {
    |files| == |nodes| && forall i :: 0 <= i < |nodes| ==> FileFor(env, nodes[i], files[i])
  }

  /** Each node's id leads to the link of the file at the node's position,
      unless a later node has the same id. */
  predicate LinkedTo(nodes: seq<OutlineNode>, files: seq<string>, downloads: map<string, string>)
    requires |files| == |nodes|
  {
    forall i :: 0 <= i < |nodes| && LastWithId(nodes, i)
      ==> nodes[i].id in downloads && downloads[nodes[i].id] == DownloadUrl(files[i])
  }

  /** The links of r for the nodes visited after acc: each node's id leads to
      the file written for it, unless a later node reuses the id. */
  predicate LinksFor(acc: Acc, nodes: seq<OutlineNode>, r: Acc) {
    |r.files| == |acc.files| + |nodes|
    && forall i :: 0 <= i < |nodes| && LastWithId(nodes, i)
         ==> nodes[i].id in r.downloads && r.downloads[nodes[i].id] == DownloadUrl(r.files[|acc.files| + i])
  }

  lemma ProcessAllLinksFor(env: Env, acc: Acc, nodes: seq<OutlineNode>)
    ensures LinksFor(acc, nodes, ProcessAll(env, acc, nodes))
  {
    ProcessAllFiles(env, acc, nodes);
    forall i | 0 <= i < |nodes| && LastWithId(nodes, i)
      ensures var r := ProcessAll(env, acc, nodes);
        nodes[i].id in r.downloads && r.downloads[nodes[i].id] == DownloadUrl(r.files[|acc.files| + i])
    {
      ProcessAllLinks(env, acc, nodes, i);
    }
  }

  /** Files and links of a request that starts with no files, indexed like the nodes. */
  lemma FromNoFiles(env: Env, acc: Acc, nodes: seq<OutlineNode>, r: Acc)
    requires acc.files == []
    requires FilesFor(env, acc, nodes, r) && LinksFor(acc, nodes, r)
    ensures NamedAfter(env, nodes, r.files) && LinkedTo(nodes, r.files, r.downloads)
  {
    forall i | 0 <= i < |nodes|
      ensures FileFor(env, nodes[i], r.files[i])
    {
      assert FileRel(env)(nodes[i], r.files[|acc.files| + i]);
    }
  }

  /** A request's files and links: one file per node visited, named after it,
      and each node's id leading to its own file unless a later node reuses
      the id. */
  lemma RequestFilesAndLinks(env: Env, acc: Acc, nodes: seq<OutlineNode>)
    requires acc.files == []
    ensures var r := ProcessAll(env, acc, nodes);
      NamedAfter(env, nodes, r.files) && LinkedTo(nodes, r.files, r.downloads)
  {
    ProcessAllFiles(env, acc, nodes);
    ProcessAllLinksFor(env, acc, nodes);
    FromNoFiles(env, acc, nodes, ProcessAll(env, acc, nodes));
  }

  /** With `/` not alphanumeric, a file written for a node lies under
      `outputs` as the location followed by a part without `/`. */
  lemma FileTail(env: Env, n: OutlineNode, f: string) returns (tail: string)
    requires !env.isAlnum('/') && FileFor(env, n, f)
    ensures '/' !in tail && f == Join(DocxService.OutputDir, env.location + tail)
  {
    var k :| f == Join(DocxService.OutputDir, Candidate(env.location, BaseLabel(env.isAlnum, n.title), k));
    CandidateAfterLocation(env.location, env.isAlnum, n.title, k);
    tail := "_" + BaseLabel(env.isAlnum, n.title) + CandidateSuffix(k);
  }

  /** An empty outline visits no node: the page is empty and no id has a link. */
  lemma EmptyOutline(env: Env, outline: seq<OutlineNode>)
    requires outline == []
    ensures PreOrder(outline) == [] && Sections(env, PreOrder(outline)) == "" && Ids(PreOrder(outline)) == {}
  {
  }

  /** The archive names of the files of a request are pairwise different, so
      no entry of the zip shadows another: every name is the location's base
      name followed by a part of the file's own name that tells it apart. */
  lemma ArchiveNamesDistinct(env: Env, nodes: seq<OutlineNode>, files: seq<string>)
    requires !env.isAlnum('/')
    requires NamedAfter(env, nodes, files) && Distinct(files)
    ensures forall i, j :: 0 <= i < j < |files| ==> Basename(files[i]) != Basename(files[j])
  {
    forall i, j | 0 <= i < j < |files|
      ensures Basename(files[i]) != Basename(files[j])
    {
      var ti := FileTail(env, nodes[i], files[i]);
      var tj := FileTail(env, nodes[j], files[j]);
      var b := Basename(env.location);
      BasenameOfJoinedTail(DocxService.OutputDir, env.location, ti);
      BasenameOfJoinedTail(DocxService.OutputDir, env.location, tj);
      AppendCancel(b, ti, tj);
    }
  }

  // ---------------------------------------------------------------------------
  // Documents that cannot be written
  // ---------------------------------------------------------------------------

  /** `create_docx` succeeds on the article generated for n. */
  predicate Renders(env: Env, n: OutlineNode) {
    !DocxService.RenderFails(env.gen(env.location, n))
  }

  /** `create_docx` succeeds on the article of every node of the list. */
  predicate AllRender(env: Env, nodes: seq<OutlineNode>)
    decreases |nodes|
  {
    nodes == [] || (Renders(env, nodes[0]) && AllRender(env, nodes[1..]))
  }

  /** Every node of the list succeeds. */
  lemma {:induction false} AllRenderIff(env: Env, nodes: seq<OutlineNode>)
    ensures AllRender(env, nodes) <==> forall i :: 0 <= i < |nodes| ==> Renders(env, nodes[i])
    decreases |nodes|
  {
    if nodes != [] {
      AllRenderIff(env, nodes[1..]);
      if AllRender(env, nodes) {
        forall i | 0 < i < |nodes|
          ensures Renders(env, nodes[i])
        {
          assert nodes[i] == nodes[1..][i - 1];
        }
      }
      if forall i :: 0 <= i < |nodes| ==> Renders(env, nodes[i]) {
        forall i | 0 <= i < |nodes| - 1
          ensures Renders(env, nodes[1..][i])
        {
          assert nodes[1..][i] == nodes[i + 1];
        }
      }
    }
  }

  lemma {:induction false} AllRenderAppend(env: Env, a: seq<OutlineNode>, b: seq<OutlineNode>)
    ensures AllRender(env, a + b) <==> AllRender(env, a) && AllRender(env, b)
    decreases |a|
  {
    if a == [] {
      assert a + b == b;
    } else {
      assert (a + b)[0] == a[0] && (a + b)[1..] == a[1..] + b;
      AllRenderAppend(env, a[1..], b);
    }
  }

  /** A node's pre-order succeeds exactly when the node does and its subtrees do. */
  lemma NodeRenders(env: Env, n: OutlineNode)
    ensures AllRender(env, PreOrder([n])) <==> Renders(env, n) && AllRender(env, PreOrder(n.children))
  {
    PreOrderSingle(n);
    AllRenderAppend(env, [n], PreOrder(n.children));
  }

  /** Adding one more tree to a forest's pre-order. */
  lemma TreeRenders(env: Env, trees: seq<OutlineNode>, i: nat)
    requires i < |trees|
    ensures AllRender(env, PreOrder(trees[..i + 1]))
        <==> AllRender(env, PreOrder(trees[..i])) && AllRender(env, PreOrder([trees[i]]))
  {
    assert trees[..i + 1] == trees[..i] + [trees[i]];
    PreOrderAppend(trees[..i], [trees[i]]);
    AllRenderAppend(env, PreOrder(trees[..i]), PreOrder([trees[i]]));
  }

  /** A forest whose every node succeeds has every tree succeeding. */
  lemma SubtreeRenders(env: Env, trees: seq<OutlineNode>, i: nat)
    requires i < |trees|
    ensures AllRender(env, PreOrder(trees)) ==> AllRender(env, PreOrder([trees[i]]))
  {
    var before, after := trees[..i], trees[i + 1..];
    assert trees == before + ([trees[i]] + after);
    PreOrderAppend(before, [trees[i]] + after);
    PreOrderAppend([trees[i]], after);
    AllRenderAppend(env, PreOrder(before), PreOrder([trees[i]] + after));
    AllRenderAppend(env, PreOrder([trees[i]]), PreOrder(after));
  }

  // ---------------------------------------------------------------------------
  // The request's state and the nested helpers of the endpoint
  // ---------------------------------------------------------------------------

  /** The visit of a node in terms of the name it is given and the path its
      document is saved under. */
  lemma ProcessWrites(env: Env, acc: Acc, n: OutlineNode, name: string, path: string)
    requires name == Allocate(acc.used, env.location, env.isAlnum, n.title)
    requires path == Join(DocxService.OutputDir, name)
    ensures Process(env, acc, n) == Acc(acc.used + {name}, acc.files + [path],
      acc.downloads[n.id := "/outputs/" + Basename(path)], acc.html + Section(n.id, env.gen(env.location, n)))
  {
  }

  /** A visit of one node, then its subtrees, is the visit of the node's
      pre-order. */
  lemma VisitThenChildren(env: Env, acc: Acc, n: OutlineNode)
    ensures ProcessAll(env, acc, PreOrder([n])) == ProcessAll(env, Process(env, acc, n), PreOrder(n.children))
  {
    PreOrderSingle(n);
    ProcessAllAppend(env, acc, [n], PreOrder(n.children));
    assert [n][..0] == [];
  }

  /** Traversing the trees of a forest one more tree at a time. */
  lemma TreeStep(env: Env, acc: Acc, trees: seq<OutlineNode>, i: nat)
    requires i < |trees|
    ensures ProcessAll(env, acc, PreOrder(trees[..i + 1]))
         == ProcessAll(env, ProcessAll(env, acc, PreOrder(trees[..i])), PreOrder([trees[i]]))
  {
    assert trees[..i + 1] == trees[..i] + [trees[i]];
    PreOrderAppend(trees[..i], [trees[i]]);
    ProcessAllAppend(env, acc, PreOrder(trees[..i]), PreOrder([trees[i]]));
  }

  /** The local state of one `api_generate_content` call: the set of names in
      use, the list of files written, the links per node id and the page,
      which the nested `get_unique_filename` and `traverse` update. */
  class ContentRequest {
    const env: Env
    var used: set<string>
    var files: seq<string>
    var downloads: map<string, string>
    var html: string

    function State(): Acc
      reads this
    {
      Acc(used, files, downloads, html)
    }

    constructor (env: Env)
      ensures this.env == env && State() == Start
    {
      this.env := env;
      used, files, downloads, html := {}, [], map[], "";
    }

    /** Sanitises the title (falling back to `article`), then tries
        `{location}_{base}.docx`, `{location}_{base}_1.docx`, ... until a name
        is not in use, and registers it. */
    method GetUniqueFilename(title: string) returns (filename: string)
      modifies this
      ensures filename == Allocate(old(used), env.location, env.isAlnum, title)
      ensures used == old(used) + {filename}
      ensures files == old(files) && downloads == old(downloads) && html == old(html)
    {
      var base := Sanitize(env.isAlnum, title);
      if base == [] {
        base := "article";
      }
      assert base == BaseLabel(env.isAlnum, title);
      filename := env.location + "_" + base + ".docx";
      var counter := 1;
      while filename in used
        invariant unchanged(this)
        invariant 1 <= counter
        invariant filename == Candidate(env.location, base, counter - 1)
        invariant Tried(env.location, base, counter - 1) <= used
        invariant FreeFrom(used, env.location, base, counter - 1) == FreeIndex(used, env.location, base)
        decreases |used| - (counter - 1)
      {
        TriedBound(used, env.location, base, counter);
        filename := env.location + "_" + base + "_" + Decimal(counter) + ".docx";
        CandidateShape(env.location, base, counter);
        counter := counter + 1;
      }
      used := used + {filename};
    }

    /** The visit of one node, lines 121-133 of `traverse`: generates its
        article, writes its document under a fresh name, records the file and
        the link, and appends the section. When `create_docx` raises, the
        visit stops with only the name registered. */
    method Visit(n: OutlineNode) returns (ok: bool)
      modifies this
      ensures ok == Renders(env, n)
      ensures ok ==> State() == Process(env, old(State()), n)
      ensures !ok ==> State() == old(State()).(used := old(used) + {Allocate(old(used), env.location, env.isAlnum, n.title)})
    {
      var content := env.gen(env.location, n);
      AllocatedPath(env, used, n.title);
      var uniqueFilename := GetUniqueFilename(n.title);
      var filepath := DocxService.SaveDocx(env.location, n.title, content, Some(uniqueFilename));
      if filepath.None? {
        ok := false;
        return;
      }
      ok := true;
      files := files + [filepath.value];
      downloads := downloads[n.id := "/outputs/" + Basename(filepath.value)];
      html := html + Section(n.id, content);
      ProcessWrites(env, old(State()), n, uniqueFilename, filepath.value);
    }

    /** `traverse`: visits a node, then its children in order, each with its
        own subtree; a failure anywhere below ends the whole traversal. */
    method Traverse(n: OutlineNode) returns (ok: bool)
      modifies this
      ensures ok == AllRender(env, PreOrder([n]))
      ensures ok ==> State() == ProcessAll(env, old(State()), PreOrder([n]))
      decreases n
    {
      NodeRenders(env, n);
      ok := Visit(n);
      if !ok {
        return;
      }
      ghost var visited := State();
      for i := 0 to |n.children|
        invariant ok
        invariant State() == ProcessAll(env, visited, PreOrder(n.children[..i]))
        invariant AllRender(env, PreOrder(n.children[..i]))
      {
        TreeStep(env, visited, n.children, i);
        TreeRenders(env, n.children, i);
        ok := Traverse(n.children[i]);
        if !ok {
          SubtreeRenders(env, n.children, i);
          return;
        }
      }
      TakeAll(n.children);
      VisitThenChildren(env, old(State()), n);
    }
  }

  /** `api_generate_content`: traverses every top-level node, then lists every
      file written in the archive `outputs/{location}_guide.zip` under its base
      name. Returns the page, the archive's link, the links per node id, and
      (as the model's view of the disk) the files written and the archive. */
  method ApiGenerateContent(location: string, outline: seq<OutlineNode>, gen: (string, OutlineNode) -> string,
                            isAlnum: char -> bool)
    returns (status: nat, html: string, downloadUrl: string, nodeDownloads: map<string, string>,
             generatedFiles: seq<string>, zipFilepath: string, zipEntries: seq<(string, string)>)
    ensures status == if AllRender(Env(location, gen, isAlnum), PreOrder(outline)) then 200 else 500
    ensures status == 200 ==> var env, nodes := Env(location, gen, isAlnum), PreOrder(outline);
      html == Sections(env, nodes) && nodeDownloads.Keys == Ids(nodes)
      && NamedAfter(env, nodes, generatedFiles) && Distinct(generatedFiles)
      && LinkedTo(nodes, generatedFiles, nodeDownloads)
    ensures status == 200 ==> zipFilepath == Join(DocxService.OutputDir, ArchiveName(location))
    ensures status == 200 ==> downloadUrl == "/outputs/" + ArchiveName(location)
    ensures status == 200 ==> |zipEntries| == |generatedFiles|
    ensures status == 200 ==>
      forall i :: 0 <= i < |zipEntries| ==> zipEntries[i] == (generatedFiles[i], Basename(generatedFiles[i]))
    ensures status == 200 && !isAlnum('/') ==>
      forall i, j :: 0 <= i < j < |zipEntries| ==> zipEntries[i].1 != zipEntries[j].1
  {
    var env := Env(location, gen, isAlnum);
    var ok;
    ok, html, nodeDownloads, generatedFiles := TraverseOutline(env, outline);
    if !ok {
      // the exception is answered with HTTP 500
      status, downloadUrl, zipFilepath, zipEntries := 500, "", "", [];
      return;
    }
    status := 200;
    ghost var nodes := PreOrder(outline);
    ProcessAllHtml(env, Start, nodes);
    ProcessAllKeys(env, Start, nodes);
    ProcessAllKeepsFilesRegistered(env, Start, nodes);
    RequestFilesAndLinks(env, Start, nodes);

    var zipFilename := ArchiveName(location);
    zipFilepath := Join(DocxService.OutputDir, zipFilename);
    zipEntries := ArchiveEntries(generatedFiles);
    if !isAlnum('/') {
      ArchiveNamesDistinct(env, nodes, generatedFiles);
    }
    downloadUrl := "/outputs/" + zipFilename;
  }

  /** Runs `traverse` on every top-level node in turn, over a new request's
      state, and returns the page, the links and the files it ends with; `ok`
      is false when some document could not be written. */
  method TraverseOutline(env: Env, outline: seq<OutlineNode>)
    returns (ok: bool, html: string, downloads: map<string, string>, files: seq<string>)
    ensures ok == AllRender(env, PreOrder(outline))
    ensures ok ==> var r := ProcessAll(env, Start, PreOrder(outline));
      html == r.html && downloads == r.downloads && files == r.files
  {
    var request := new ContentRequest(env);
    ok := true;
    for i := 0 to |outline|
      invariant request.env == env
      invariant request.State() == ProcessAll(env, Start, PreOrder(outline[..i]))
      invariant AllRender(env, PreOrder(outline[..i]))
    {
      TreeStep(env, Start, outline, i);
      TreeRenders(env, outline, i);
      ok := request.Traverse(outline[i]);
      if !ok {
        SubtreeRenders(env, outline, i);
        html, downloads, files := [], map[], [];
        return;
      }
    }
    TakeAll(outline);
    html, downloads, files := request.html, request.downloads, request.files;
  }

  /** The archive of a location's guide. */
  function ArchiveName(location: string): string {
    location + "_guide.zip"
  }

  /** The entries the archive gets, in order: each file under its base name. */
  method ArchiveEntries(files: seq<string>) returns (entries: seq<(string, string)>)
    ensures |entries| == |files|
    ensures forall i :: 0 <= i < |files| ==> entries[i] == (files[i], Basename(files[i]))
  {
    entries := [];
    for i := 0 to |files|
      invariant |entries| == i
      invariant forall k :: 0 <= k < i ==> entries[k] == (files[k], Basename(files[k]))
    {
      entries := entries + [(files[i], Basename(files[i]))];
    }
  }

  /** The name `api_generate_single_content` asks for: location, `_`, title
      and `.docx`, then sanitised as a whole. */
  function SingleName(isAlnum: char -> bool, location: string, title: string): string {
    Sanitize(isAlnum, location + "_" + title + ".docx")
  }

  /** The sanitised name keeps its `.docx`, so `create_docx` saves the document
      under exactly that name, never under its default name; and with `/` not
      alphanumeric the link ends in that name. */
  lemma SingleNameUsed(isAlnum: char -> bool, location: string, title: string)
    requires isAlnum('d') && isAlnum('o') && isAlnum('c') && isAlnum('x')
    ensures var name := SingleName(isAlnum, location, title);
      name != [] && DocxService.DocxName(location, title, Some(name)) == name
      && (!isAlnum('/') ==> DownloadUrl(DocxService.DocxPath(location, title, Some(name))) == "/outputs/" + name)
  {
    var name := SingleName(isAlnum, location, title);
    SanitizeKeepsDocx(isAlnum, location + "_" + title);
    if !isAlnum('/') {
      SanitizedHasNoSlash(isAlnum, location + "_" + title + ".docx");
      BasenameOfJoin(DocxService.OutputDir, name);
      BasenameOfPlainName(name);
    }
  }

  /** `api_generate_single_content`: one node, one document, no registry of
      names; returns the node's section and the link to its document. */
  method ApiGenerateSingleContent(location: string, node: OutlineNode, gen: (string, OutlineNode) -> string,
                                  isAlnum: char -> bool)
    returns (status: nat, html: string, downloadUrl: string)
    ensures status == if DocxService.RenderFails(gen(location, node)) then 500 else 200
    ensures status == 200 ==> html == Section(node.id, gen(location, node))
    ensures status == 200 && isAlnum('d') && isAlnum('o') && isAlnum('c') && isAlnum('x') && !isAlnum('/')
      ==> downloadUrl == "/outputs/" + SingleName(isAlnum, location, node.title)
  {
    var content := gen(location, node);
    var filename := location + "_" + node.title + ".docx";
    filename := Sanitize(isAlnum, filename);
    var filepath := DocxService.SaveDocx(location, node.title, content, Some(filename));
    if filepath.None? {
      // the exception is answered with HTTP 500
      status, html, downloadUrl := 500, [], [];
      return;
    }
    status := 200;
    html := Section(node.id, content);
    downloadUrl := "/outputs/" + Basename(filepath.value);
    if isAlnum('d') && isAlnum('o') && isAlnum('c') && isAlnum('x') {
      SingleNameUsed(isAlnum, location, node.title);
    }
  }
}
