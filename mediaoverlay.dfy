/**
  Media Overlay Documents (SMIL): the `<seq>`/`<par>`/`<text>`/`<audio>`
  tree read from the `<body>` of a `<smil>` root, and the queries over it
  (embedded audio/video, referenced audio files, referenced fragment
  identifiers and their grouping by Content Document).

  The tree is a value: every element kind is one constructor of
  `MOElement`, as the queries of the document treat `seq` and `par`
  alike when they descend.
*/
module MediaOverlay {
  import opened Wrappers
  import opened Util
  import opened Xml
  import opened Paths

  const E_SMIL := Q(NS_SMIL, "smil")
  const E_BODY := Q(NS_SMIL, "body")
  const E_SEQ := Q(NS_SMIL, "seq")
  const E_PAR := Q(NS_SMIL, "par")
  const E_TEXT := Q(NS_SMIL, "text")
  const E_AUDIO := Q(NS_SMIL, "audio")
  const A_EPUB_TYPE := Q(NS_EPUB, "type")
  const A_EPUB_TEXTREF := Q(NS_EPUB, "textref")
  const A_EPUB_PREFIX := Q(NS_EPUB, "prefix")

  /** The element names the readers compare with are pairwise distinct. */
  lemma TagsDistinct()
    ensures E_SEQ != E_PAR && E_TEXT != E_AUDIO
  {
    QLocalDistinct(NS_SMIL, "seq", "par");
    QLocalDistinct(NS_SMIL, "text", "audio");
  }

  /** A node of a Media Overlay tree, with the attributes each kind reads. */
  datatype MOElement =
    | Seq(textref: Option<string>, epubType: Option<string>, id: Option<string>, children: seq<MOElement>)
    | Par(epubType: Option<string>, id: Option<string>, children: seq<MOElement>)
    | Text(id: Option<string>, src: Option<string>)
    | Audio(clipBegin: Option<string>, clipEnd: Option<string>, id: Option<string>, src: Option<string>)
  {
    /** A `seq` or a `par`: the kinds that have children. */
    predicate IsContainer() { Seq? || Par? }
  }

  /** A parsed Media Overlay Document; `body` is None only for a document built empty. */
  datatype MODocument = MODocument(internalPath: Option<string>, epubPrefix: Option<string>,
                                   id: Option<string>, version: Option<string>, body: Option<MOElement>)

  // ---------------------------------------------------------------------
  // Shape of a parsed tree
  // ---------------------------------------------------------------------

  /** A `par` whose children are all `text` or `audio`. */
  predicate WellFormedPar(e: MOElement)
  {
    e.Par? && forall i :: 0 <= i < |e.children| ==> e.children[i].Text? || e.children[i].Audio?
  }

  /** A `seq` whose children are well-formed `seq` or `par` elements, to any depth. */
  predicate WellFormedSeq(e: MOElement)
  {
    e.Seq? && forall i :: 0 <= i < |e.children| ==>
      (e.children[i].Seq? && WellFormedSeq(e.children[i])) || WellFormedPar(e.children[i])
  }

  /** `add_child`: the child goes at the end; nothing else changes. */
  function AddChild(e: MOElement, child: MOElement): (r: MOElement)
    requires e.IsContainer()
    ensures r.IsContainer() && r.Seq? == e.Seq?
    ensures |r.children| == |e.children| + 1 && r.children[..|e.children|] == e.children
    ensures r.children[|e.children|] == child
    ensures r.id == e.id && r.epubType == e.epubType && (r.Seq? ==> r.textref == e.textref)
  {
    e.(children := e.children + [child])
  }

  // ---------------------------------------------------------------------
  // Parsing
  // ---------------------------------------------------------------------

  function TextOf(n: Node): MOElement
  {
    Text(Attr(n, "id"), Attr(n, "src"))
  }

  function AudioOf(n: Node): MOElement
  {
    Audio(Attr(n, "clipBegin"), Attr(n, "clipEnd"), Attr(n, "id"), Attr(n, "src"))
  }

  /** The children a `par` keeps from the element children `cs`: its `text` and `audio` ones. */
  function ParChildrenOf(cs: seq<Node>): (r: seq<MOElement>)
    ensures forall i :: 0 <= i < |r| ==> r[i].Text? || r[i].Audio?
    decreases |cs|
  {
    if cs == [] then []
    else
      var c := cs[|cs| - 1];
      ParChildrenOf(cs[..|cs| - 1])
        + (if c.tag == E_TEXT then [TextOf(c)] else [])
        + (if c.tag == E_AUDIO then [AudioOf(c)] else [])
  }

  /** The `par` read from `n`. */
  function ParOf(n: Node): (r: MOElement)
    ensures WellFormedPar(r)
  {
    Par(Attr(n, A_EPUB_TYPE), Attr(n, "id"), ParChildrenOf(n.children))
  }

  /** The `seq` read from `n`, its `seq` children read recursively. */
  function SeqOf(n: Node): (r: MOElement)
    ensures WellFormedSeq(r)
    decreases n, 1
  {
    Seq(Attr(n, A_EPUB_TEXTREF), Attr(n, A_EPUB_TYPE), Attr(n, "id"), SeqChildrenOf(n.children))
  }

  /** The children a `seq` keeps from the element children `cs`: its `seq` and `par` ones. */
  function SeqChildrenOf(cs: seq<Node>): (r: seq<MOElement>)
    ensures forall i :: 0 <= i < |r| ==> (r[i].Seq? && WellFormedSeq(r[i])) || WellFormedPar(r[i])
    decreases cs, 0
  {
    if cs == [] then []
    else
      var c := cs[|cs| - 1];
      SeqChildrenOf(cs[..|cs| - 1])
        + (if c.tag == E_SEQ then [SeqOf(c)] else [])
        + (if c.tag == E_PAR then [ParOf(c)] else [])
  }

  /** `MOPar.parse_object`: the attributes, then each `text` or `audio` child appended in turn. */
  method ParsePar(n: Node) returns (p: MOElement)
    ensures p == ParOf(n)
  {
    p := Par(Attr(n, A_EPUB_TYPE), Attr(n, "id"), []);
    var i := 0;
    while i < |n.children|
      invariant 0 <= i <= |n.children|
      invariant p == Par(Attr(n, A_EPUB_TYPE), Attr(n, "id"), ParChildrenOf(n.children[..i]))
    {
      var child := n.children[i];
      assert n.children[..i + 1][..i] == n.children[..i];
      if child.tag == E_TEXT {
        p := AddChild(p, TextOf(child));
      }
      if child.tag == E_AUDIO {
        p := AddChild(p, AudioOf(child));
      }
      i := i + 1;
    }
    assert n.children[..i] == n.children;
  }

  /** One more element child of a `seq` adds what it is read as, if anything, after the others. */
  lemma SeqChildrenSnoc(cs: seq<Node>, i: nat)
    requires i < |cs|
    ensures SeqChildrenOf(cs[..i + 1]) == SeqChildrenOf(cs[..i]) + (if cs[i].tag == E_SEQ then [SeqOf(cs[i])] else []) +
                                           (if cs[i].tag == E_PAR then [ParOf(cs[i])] else [])
  {
    assert cs[..i + 1][..i] == cs[..i];
  }

  /** `MOSeq.parse_object`: the attributes, then each `seq` (recursively) or `par` child appended in turn. */
  method ParseSeq(n: Node) returns (s: MOElement)
    ensures s == SeqOf(n)
    decreases n
  {
    s := Seq(Attr(n, A_EPUB_TEXTREF), Attr(n, A_EPUB_TYPE), Attr(n, "id"), []);
    var i := 0;
    while i < |n.children|
      invariant 0 <= i <= |n.children|
      invariant s == Seq(Attr(n, A_EPUB_TEXTREF), Attr(n, A_EPUB_TYPE), Attr(n, "id"), SeqChildrenOf(n.children[..i]))
    {
      var child := n.children[i];
      SeqChildrenSnoc(n.children, i);
      if child.tag == E_SEQ {
        var sub := ParseSeq(child);
        s := AddChild(s, sub);
      }
      if child.tag == E_PAR {
        var sub := ParsePar(child);
        s := AddChild(s, sub);
      }
      i := i + 1;
    }
    assert n.children[..i] == n.children;
  }

  /** The document read from the root element `root`, or the failure `parse_object` raises. */
  function DocumentOf(root: Node, internalPath: Option<string>): Result<MODocument>
  {
    if root.tag != E_SMIL then Fail(MissingElement("smil"))
    else if Children(root, E_BODY) == [] then Fail(MissingElement("body"))
    else Ok(MODocument(internalPath, Attr(root, A_EPUB_PREFIX), Attr(root, "id"), Attr(root, "version"),
                       Some(SeqOf(Children(root, E_BODY)[0]))))
  }

  /**
    `MODocument.parse_object`: the root must be `<smil>` and must have a
    `<body>` child, which is read as a `seq`.
  */
  method Parse(root: Node, internalPath: Option<string>) returns (r: Result<MODocument>)
    ensures r == DocumentOf(root, internalPath)
    ensures root.tag != E_SMIL ==> r == Fail(MissingElement("smil"))
    ensures root.tag == E_SMIL && Children(root, E_BODY) == [] ==> r == Fail(MissingElement("body"))
    ensures r.Ok? <==> root.tag == E_SMIL && Children(root, E_BODY) != []
    ensures r.Ok? ==> r.value == MODocument(internalPath, Attr(root, A_EPUB_PREFIX), Attr(root, "id"),
                                            Attr(root, "version"), Some(SeqOf(Children(root, E_BODY)[0])))
    ensures r.Ok? ==> WellFormedSeq(r.value.body.value)
  {
    if root.tag != E_SMIL {
      return Fail(MissingElement("smil"));
    }
    var bodies := Children(root, E_BODY);
    if bodies == [] {
      return Fail(MissingElement("body"));
    }
    var body := ParseSeq(bodies[0]);
    r := Ok(MODocument(internalPath, Attr(root, A_EPUB_PREFIX), Attr(root, "id"), Attr(root, "version"), Some(body)));
  }
  /** The tags a `seq` keeps. */
  predicate KeptBySeq(c: Node) { c.tag == E_SEQ || c.tag == E_PAR }

  /** The tags a `par` keeps. */
  predicate KeptByPar(c: Node) { c.tag == E_TEXT || c.tag == E_AUDIO }

  /** Each kept node read by its tag. */
  function ReadEach(cs: seq<Node>): seq<MOElement>
    decreases cs, 0
  {
    if cs == [] then []
    else
      [if cs[0].tag == E_SEQ then SeqOf(cs[0]) else if cs[0].tag == E_PAR then ParOf(cs[0])
       else if cs[0].tag == E_TEXT then TextOf(cs[0]) else AudioOf(cs[0])] + ReadEach(cs[1..])
  }

  lemma {:induction false} ReadEachAppend(a: seq<Node>, b: seq<Node>)
    ensures ReadEach(a + b) == ReadEach(a) + ReadEach(b)
  {
    if a == [] {
      assert a + b == b;
    } else {
      assert (a + b)[1..] == a[1..] + b;
      ReadEachAppend(a[1..], b);
    }
  }

  /**
    A `seq` keeps exactly its `seq` and `par` element children, in document
    order, each read according to its tag; every other child is ignored.
  */
  lemma {:induction false} SeqKeepsSeqAndPar(cs: seq<Node>)
    ensures SeqChildrenOf(cs) == ReadEach(Filter(cs, KeptBySeq))
    decreases |cs|
  {
    if cs != [] {
      var init, c := cs[..|cs| - 1], cs[|cs| - 1];
      assert cs == init + [c];
      SeqKeepsSeqAndPar(init);
      var tail := (if c.tag == E_SEQ then [SeqOf(c)] else []) + (if c.tag == E_PAR then [ParOf(c)] else []);
      assert SeqChildrenOf(cs) == SeqChildrenOf(init) + tail;
      FilterAppend(init, [c], KeptBySeq);
      ReadEachAppend(Filter(init, KeptBySeq), Filter([c], KeptBySeq));
      TagsDistinct();
      KeptTail(c, KeptBySeq(c), tail);
    }
  }

  /**
    A `par` keeps exactly its `text` and `audio` element children, in
    document order, each read according to its tag.
  */
  lemma {:induction false} ParKeepsTextAndAudio(cs: seq<Node>)
    ensures ParChildrenOf(cs) == ReadEach(Filter(cs, KeptByPar))
    decreases |cs|
  {
    if cs != [] {
      var init, c := cs[..|cs| - 1], cs[|cs| - 1];
      assert cs == init + [c];
      ParKeepsTextAndAudio(init);
      var tail := (if c.tag == E_TEXT then [TextOf(c)] else []) + (if c.tag == E_AUDIO then [AudioOf(c)] else []);
      assert ParChildrenOf(cs) == ParChildrenOf(init) + tail;
      FilterAppend(init, [c], KeptByPar);
      ReadEachAppend(Filter(init, KeptByPar), Filter([c], KeptByPar));
      TagsDistinct();
      KeptTail(c, KeptByPar(c), tail);
    }
  }

  /** The contribution of the last child, as read by `ReadEach`. */
  lemma KeptTail(c: Node, kept: bool, tail: seq<MOElement>)
    requires kept ==> tail == [if c.tag == E_SEQ then SeqOf(c) else if c.tag == E_PAR then ParOf(c)
                               else if c.tag == E_TEXT then TextOf(c) else AudioOf(c)]
    requires !kept ==> tail == []
    ensures ReadEach(if kept then [c] else []) == tail
  {
    if kept {
      assert [c][1..] == [];
    }
  }
  // ---------------------------------------------------------------------
  // Queries over the tree
  // ---------------------------------------------------------------------

  /** The two kinds of leaf a query collects. */
  datatype Leaf = TextLeaf | AudioLeaf

  predicate IsLeaf(e: MOElement, k: Leaf)
  {
    if k == TextLeaf then e.Text? else e.Audio?
  }

  /** A `src` as the document reports it: resolved against the document's own path when it has one. */
  function Resolve(internalPath: Option<string>, src: Option<string>): Option<string>
  {
    if internalPath.Some? then NormJoinParent(internalPath, src) else src
  }

  /**
    The resolved `src` of every leaf of kind `k` below the elements `es`,
    depth-first in document order: the recursion of the collecting helpers,
    which descend into every `seq` and `par`.
  */
  function LeafSrcs(ip: Option<string>, es: seq<MOElement>, k: Leaf): seq<Option<string>>
    decreases es, 0
  {
    if es == [] then [] else LeafSrcsIn(ip, es[0], k) + LeafSrcs(ip, es[1..], k)
  }

  function LeafSrcsIn(ip: Option<string>, e: MOElement, k: Leaf): seq<Option<string>>
    decreases e, 1
  {
    if e.IsContainer() then LeafSrcs(ip, e.children, k)
    else if IsLeaf(e, k) then [Resolve(ip, e.src)]
    else []
  }

  lemma {:induction false} LeafSrcsAppend(ip: Option<string>, a: seq<MOElement>, b: seq<MOElement>, k: Leaf)
    ensures LeafSrcs(ip, a + b, k) == LeafSrcs(ip, a, k) + LeafSrcs(ip, b, k)
  {
    if a == [] {
      assert a + b == b;
    } else {
      assert (a + b)[0] == a[0];
      assert (a + b)[1..] == a[1..] + b;
      LeafSrcsAppend(ip, a[1..], b, k);
    }
  }

  lemma LeafSrcsSingle(ip: Option<string>, e: MOElement, k: Leaf)
    ensures LeafSrcs(ip, [e], k) == LeafSrcsIn(ip, e, k)
  {
    assert [e][1..] == [];
  }

  /** One more element of a list contributes its own sources after those of the elements before it. */
  lemma LeafSrcsSnoc(ip: Option<string>, es: seq<MOElement>, i: nat, k: Leaf)
    requires i < |es|
    ensures LeafSrcs(ip, es[..i + 1], k) == LeafSrcs(ip, es[..i], k) + LeafSrcsIn(ip, es[i], k)
  {
    assert es[..i + 1] == es[..i] + [es[i]];
    LeafSrcsAppend(ip, es[..i], [es[i]], k);
    LeafSrcsSingle(ip, es[i], k);
  }

  /** A child added with `add_child` contributes its sources after all earlier ones. */
  lemma AddChildSrcs(ip: Option<string>, e: MOElement, child: MOElement, k: Leaf)
    requires e.IsContainer()
    ensures LeafSrcsIn(ip, AddChild(e, child), k) == LeafSrcsIn(ip, e, k) + LeafSrcsIn(ip, child, k)
  {
    LeafSrcsAppend(ip, e.children, [child], k);
    LeafSrcsSingle(ip, child, k);
  }

  /** Every element below `es`, each followed by its own descendants: document order. */
  function ElementsOf(es: seq<MOElement>): seq<MOElement>
    decreases es, 0
  {
    if es == [] then [] else [es[0]] + Below(es[0]) + ElementsOf(es[1..])
  }

  function Below(e: MOElement): seq<MOElement>
    decreases e, 1
  {
    if e.IsContainer() then ElementsOf(e.children) else []
  }

  /** The resolved `src` of each leaf of kind `k` in a flat list of elements. */
  function SrcsOfLeaves(ip: Option<string>, xs: seq<MOElement>, k: Leaf): seq<Option<string>>
  {
    if xs == [] then []
    else (if IsLeaf(xs[0], k) then [Resolve(ip, xs[0].src)] else []) + SrcsOfLeaves(ip, xs[1..], k)
  }

  lemma {:induction false} SrcsOfLeavesAppend(ip: Option<string>, a: seq<MOElement>, b: seq<MOElement>, k: Leaf)
    ensures SrcsOfLeaves(ip, a + b, k) == SrcsOfLeaves(ip, a, k) + SrcsOfLeaves(ip, b, k)
  {
    if a == [] {
      assert a + b == b;
    } else {
      var x, t := a[0], a[1..];
      calc {
        SrcsOfLeaves(ip, a + b, k);
      == { assert a + b == [x] + (t + b); SrcsOfLeavesCons(ip, x, t + b, k); }
        SrcsOfLeaves(ip, [x], k) + SrcsOfLeaves(ip, t + b, k);
      == { SrcsOfLeavesAppend(ip, t, b, k); }
        SrcsOfLeaves(ip, [x], k) + (SrcsOfLeaves(ip, t, k) + SrcsOfLeaves(ip, b, k));
      == { assert a == [x] + t; SrcsOfLeavesCons(ip, x, t, k); }
        SrcsOfLeaves(ip, a, k) + SrcsOfLeaves(ip, b, k);
      }
    }
  }

  /** A first element contributes its own source, when it has one, before all the others. */
  lemma SrcsOfLeavesCons(ip: Option<string>, x: MOElement, xs: seq<MOElement>, k: Leaf)
    ensures SrcsOfLeaves(ip, [x] + xs, k) == SrcsOfLeaves(ip, [x], k) + SrcsOfLeaves(ip, xs, k)
  {
    assert ([x] + xs)[0] == x && ([x] + xs)[1..] == xs;
    assert [x][1..] == [];
  }

  /**
    The recursive collection visits the leaves exactly as a walk over all
    elements in document order does: the same sources, in the same order,
    duplicates included.
  */
  lemma {:induction false} LeafSrcsInDocumentOrder(ip: Option<string>, es: seq<MOElement>, k: Leaf)
    ensures LeafSrcs(ip, es, k) == SrcsOfLeaves(ip, ElementsOf(es), k)
    decreases es, 0
  {
    if es != [] {
      LeafSrcsInOrder(ip, es[0], k);
      LeafSrcsInDocumentOrder(ip, es[1..], k);
      SrcsOfLeavesAppend(ip, [es[0]] + Below(es[0]), ElementsOf(es[1..]), k);
    }
  }

  lemma {:induction false} LeafSrcsInOrder(ip: Option<string>, e: MOElement, k: Leaf)
    ensures LeafSrcsIn(ip, e, k) == SrcsOfLeaves(ip, [e] + Below(e), k)
    decreases e, 1
  {
    SrcsOfLeavesAppend(ip, [e], Below(e), k);
    assert [e][1..] == [];
    if e.IsContainer() {
      LeafSrcsInDocumentOrder(ip, e.children, k);
    }
  }

  /** `_referenced_fragment_identifiers`: appends the resolved `src` of every `text` below `es` to `acc`. */
  method CollectFragments(ip: Option<string>, es: seq<MOElement>, acc: seq<Option<string>>)
    returns (r: seq<Option<string>>)
    ensures r == acc + LeafSrcs(ip, es, TextLeaf)
    decreases es
  {
    r := acc;
    var i := 0;
    while i < |es|
      invariant 0 <= i <= |es|
      invariant r == acc + LeafSrcs(ip, es[..i], TextLeaf)
    {
      var e := es[i];
      LeafSrcsSnoc(ip, es, i, TextLeaf);
      if e.IsContainer() {
        r := CollectFragments(ip, e.children, r);
      } else if e.Text? {
        r := r + [Resolve(ip, e.src)];
      }
      i := i + 1;
    }
    assert es[..i] == es;
  }

  /**
    `_referenced_audio_files`: records the resolved `src` of every `audio`
    below `es` as a key of the insertion-ordered dictionary whose keys are `keys`.
  */
  method CollectAudio(ip: Option<string>, es: seq<MOElement>, keys: seq<Option<string>>)
    returns (r: seq<Option<string>>)
    ensures r == InsertAll(keys, LeafSrcs(ip, es, AudioLeaf))
    decreases es
  {
    r := keys;
    var i := 0;
    while i < |es|
      invariant 0 <= i <= |es|
      invariant r == InsertAll(keys, LeafSrcs(ip, es[..i], AudioLeaf))
    {
      var e := es[i];
      LeafSrcsSnoc(ip, es, i, AudioLeaf);
      InsertAllAppend(keys, LeafSrcs(ip, es[..i], AudioLeaf), LeafSrcsIn(ip, e, AudioLeaf));
      if e.IsContainer() {
        r := CollectAudio(ip, e.children, r);
      } else if e.Audio? {
        var path := Resolve(ip, e.src);
        assert InsertAll(r, [path]) == if path in r then r else r + [path] by {
          assert [path][..0] == [];
        }
        if path !in r {
          r := r + [path];
        }
      } else {
        assert LeafSrcsIn(ip, e, AudioLeaf) == [];
      }
      i := i + 1;
    }
    assert es[..i] == es;
  }

  /** The fragment identifiers of a document: none without a body. */
  function FragmentIds(doc: MODocument): seq<Option<string>>
  {
    if doc.body.Some? && doc.body.value.IsContainer()
    then LeafSrcs(doc.internalPath, doc.body.value.children, TextLeaf) else []
  }

  /** The audio files of a document: none without a body. */
  function AudioFiles(doc: MODocument): seq<Option<string>>
  {
    if doc.body.Some? && doc.body.value.IsContainer()
    then InsertAll([], LeafSrcs(doc.internalPath, doc.body.value.children, AudioLeaf)) else []
  }

  /** `referenced_fragment_identifiers`: every `text` source, in document order, duplicates kept. */
  method ReferencedFragmentIdentifiers(doc: MODocument) returns (r: seq<Option<string>>)
    ensures r == FragmentIds(doc)
    ensures doc.body.Some? && doc.body.value.IsContainer() ==>
              r == SrcsOfLeaves(doc.internalPath, ElementsOf(doc.body.value.children), TextLeaf)
  {
    if doc.body.Some? && doc.body.value.IsContainer() {
      r := CollectFragments(doc.internalPath, doc.body.value.children, []);
      LeafSrcsInDocumentOrder(doc.internalPath, doc.body.value.children, TextLeaf);
    } else {
      r := [];
    }
  }

  /**
    `referenced_audio_files`: each resolved `audio` source once, in the
    order of first appearance in the document.
  */
  method ReferencedAudioFiles(doc: MODocument) returns (r: seq<Option<string>>)
    ensures r == AudioFiles(doc)
  {
    if doc.body.Some? && doc.body.value.IsContainer() {
      r := CollectAudio(doc.internalPath, doc.body.value.children, []);
    } else {
      r := [];
    }
  }

  /**
    The audio files are the audio sources of the document with duplicates
    removed: no path twice, every source present, and in first-seen order.
  */
  lemma AudioFilesDistinct(doc: MODocument)
    requires doc.body.Some? && doc.body.value.IsContainer()
    ensures NoDuplicates(AudioFiles(doc))
    ensures forall p :: p in AudioFiles(doc) <==>
              p in SrcsOfLeaves(doc.internalPath, ElementsOf(doc.body.value.children), AudioLeaf)
    ensures FirstSeenOrder(SrcsOfLeaves(doc.internalPath, ElementsOf(doc.body.value.children), AudioLeaf), AudioFiles(doc))
  {
    var srcs := SrcsOfLeaves(doc.internalPath, ElementsOf(doc.body.value.children), AudioLeaf);
    AudioFilesOfSources(doc);
    InsertAllFacts([], srcs);
    forall p ensures p in AudioFiles(doc) <==> p in srcs {
      DistinctMember(srcs, p);
    }
    InsertAllFirstSeen(srcs);
  }

  /** The audio files are the audio sources, each inserted once. */
  lemma AudioFilesOfSources(doc: MODocument)
    requires doc.body.Some? && doc.body.value.IsContainer()
    ensures AudioFiles(doc) == InsertAll([], SrcsOfLeaves(doc.internalPath, ElementsOf(doc.body.value.children), AudioLeaf))
  {
    LeafSrcsInDocumentOrder(doc.internalPath, doc.body.value.children, AudioLeaf);
  }
  // ---------------------------------------------------------------------
  // Embedded audio and video
  // ---------------------------------------------------------------------

  predicate IsAudio(e: MOElement) { e.Audio? }

  /** `has_audio_child`: some child of the `par` is an `audio`. */
  function HasAudioChild(p: MOElement): (r: bool)
    requires p.Par?
    ensures r <==> exists i :: 0 <= i < |p.children| && p.children[i].Audio?
  {
    FilterFacts(p.children, IsAudio);
    |Filter(p.children, IsAudio)| > 0
  }

  /**
    `_references_embedded_audio_video`: the early-return search through
    nested `seq` elements for a `par` with no `audio` child.
  */
  function EmbeddedAV(es: seq<MOElement>): bool
    decreases es
  {
    if es == [] then false
    else
      var hasEmbedded := if es[0].Seq? then EmbeddedAV(es[0].children)
                         else if es[0].Par? then !HasAudioChild(es[0]) else false;
      hasEmbedded || EmbeddedAV(es[1..])
  }

  /** `references_embedded_audio_video`: False for a document without a body. */
  function ReferencesEmbeddedAudioVideo(doc: MODocument): bool
  {
    doc.body.Some? && doc.body.value.IsContainer() && EmbeddedAV(doc.body.value.children)
  }

  /** A `par` that references embedded audio or video: it has no `audio` child (text is not checked). */
  predicate SilentPar(x: MOElement)
  {
    x.Par? && !HasAudioChild(x)
  }

  /** Below a list of leaves there is nothing else. */
  lemma {:induction false} ElementsOfLeaves(es: seq<MOElement>)
    requires forall i :: 0 <= i < |es| ==> es[i].Text? || es[i].Audio?
    ensures ElementsOf(es) == es
  {
    if es != [] {
      ElementsOfLeaves(es[1..]);
    }
  }

  /**
    In a well-formed tree the search succeeds exactly when some `par`
    anywhere below the elements has no `audio` child.
  */
  lemma {:induction false} EmbeddedAVIffSilentPar(es: seq<MOElement>)
    requires forall i :: 0 <= i < |es| ==> WellFormedSeq(es[i]) || WellFormedPar(es[i])
    ensures EmbeddedAV(es) <==> exists x :: x in ElementsOf(es) && SilentPar(x)
    decreases es
  {
    if es != [] {
      var e := es[0];
      EmbeddedAVIffSilentPar(es[1..]);
      assert ElementsOf(es) == [e] + Below(e) + ElementsOf(es[1..]);
      assert e in ElementsOf(es);
      assert forall x :: x in ElementsOf(es[1..]) ==> x in ElementsOf(es);
      if e.Seq? {
        EmbeddedAVIffSilentPar(e.children);
        assert !SilentPar(e);
      } else {
        assert WellFormedPar(e);
        ElementsOfLeaves(e.children);
        assert Below(e) == e.children;
        assert forall x :: x in Below(e) ==> !x.Par?;
      }
    }
  }

  /** A parsed document references embedded audio or video exactly when some `par` in its body lacks audio. */
  lemma ParsedEmbeddedAV(doc: MODocument)
    requires doc.body.Some? && WellFormedSeq(doc.body.value)
    ensures ReferencesEmbeddedAudioVideo(doc) <==>
              exists x :: x in ElementsOf(doc.body.value.children) && SilentPar(x)
  {
    EmbeddedAVIffSilentPar(doc.body.value.children);
  }

  // ---------------------------------------------------------------------
  // Fragment identifiers grouped by Content Document
  // ---------------------------------------------------------------------

  /** One entry of the grouping dictionary: a base path and its fragments in order. */
  datatype Group = Group(base: string, fragments: seq<Option<string>>)

  /** The keys of the grouping dictionary, in insertion order. */
  function Bases(groups: seq<Group>): (r: seq<string>)
    ensures |r| == |groups| && forall i :: 0 <= i < |groups| ==> r[i] == groups[i].base
  {
    seq(|groups|, i requires 0 <= i < |groups| => groups[i].base)
  }

  /** `grouped[base].append(fragment)`, creating the entry at the end when `base` is new. */
  function AddFragment(groups: seq<Group>, base: string, fragment: Option<string>): seq<Group>
  {
    var k := IndexOf(Bases(groups), base);
    if k < 0 then groups + [Group(base, [fragment])]
    else groups[k := groups[k].(fragments := groups[k].fragments + [fragment])]
  }

  /** The grouping of the fragment identifiers `fids`, one at a time. */
  function Grouped(fids: seq<Option<string>>): seq<Group>
    decreases |fids|
  {
    if fids == [] then []
    else
      var g := Grouped(fids[..|fids| - 1]);
      match SplitReference(fids[|fids| - 1])
      case Some(ref) => AddFragment(g, ref.base, ref.fragment)
      case None => g
  }

  /** The references `split_reference` accepts, in order: the others are dropped. */
  function References(fids: seq<Option<string>>): (r: seq<Reference>)
    ensures |r| <= |fids|
    decreases |fids|
  {
    if fids == [] then []
    else
      References(fids[..|fids| - 1])
        + (match SplitReference(fids[|fids| - 1]) case Some(ref) => [ref] case None => [])
  }

  /** The base of each reference. */
  function BasesOf(refs: seq<Reference>): (r: seq<string>)
    ensures |r| == |refs| && forall i :: 0 <= i < |refs| ==> r[i] == refs[i].base
  {
    seq(|refs|, i requires 0 <= i < |refs| => refs[i].base)
  }

  /** The fragments of the references whose base is `base`, in order. */
  function FragmentsWithBase(refs: seq<Reference>, base: string): seq<Option<string>>
    decreases |refs|
  {
    if refs == [] then []
    else
      FragmentsWithBase(refs[..|refs| - 1], base)
        + (if refs[|refs| - 1].base == base then [refs[|refs| - 1].fragment] else [])
  }

  lemma {:induction false} FragmentsOfAbsentBase(refs: seq<Reference>, base: string)
    requires base !in BasesOf(refs)
    ensures FragmentsWithBase(refs, base) == []
    decreases |refs|
  {
    if refs != [] {
      var init := refs[..|refs| - 1];
      assert BasesOf(init) == BasesOf(refs)[..|refs| - 1];
      FragmentsOfAbsentBase(init, base);
      assert refs[|refs| - 1].base == BasesOf(refs)[|refs| - 1];
    }
  }

  /** The grouping as a dictionary: the reference definition of its keys and of each key's list. */
  ghost predicate GroupsOf(groups: seq<Group>, refs: seq<Reference>)
  {
    Bases(groups) == InsertAll([], BasesOf(refs)) &&
    forall i :: 0 <= i < |groups| ==> groups[i].fragments == FragmentsWithBase(refs, groups[i].base)
  }

  lemma AddFragmentStep(g: seq<Group>, refs: seq<Reference>, ref: Reference)
    requires GroupsOf(g, refs)
    ensures GroupsOf(AddFragment(g, ref.base, ref.fragment), refs + [ref])
  {
    AddFragmentKeys(g, refs, ref);
    AddFragmentLists(g, refs, ref);
  }

  /** Adding a fragment inserts its base as a key. */
  lemma AddFragmentKeys(g: seq<Group>, refs: seq<Reference>, ref: Reference)
    requires Bases(g) == InsertAll([], BasesOf(refs))
    ensures Bases(AddFragment(g, ref.base, ref.fragment)) == InsertAll([], BasesOf(refs + [ref]))
  {
    var refs' := refs + [ref];
    assert BasesOf(refs') == BasesOf(refs) + [ref.base];
    assert BasesOf(refs')[..|BasesOf(refs')| - 1] == BasesOf(refs);
    var k := IndexOf(Bases(g), ref.base);
    var g' := AddFragment(g, ref.base, ref.fragment);
    if k < 0 {
      assert Bases(g') == Bases(g) + [ref.base];
    } else {
      assert Bases(g') == Bases(g);
    }
  }

  /** Adding a fragment extends the list of its base and no other. */
  lemma AddFragmentLists(g: seq<Group>, refs: seq<Reference>, ref: Reference)
    requires GroupsOf(g, refs)
    ensures var g' := AddFragment(g, ref.base, ref.fragment);
            forall i :: 0 <= i < |g'| ==> g'[i].fragments == FragmentsWithBase(refs + [ref], g'[i].base)
  {
    var refs' := refs + [ref];
    assert refs'[..|refs'| - 1] == refs;
    InsertAllFacts([], BasesOf(refs));
    var k := IndexOf(Bases(g), ref.base);
    var g' := AddFragment(g, ref.base, ref.fragment);
    if k < 0 {
      FragmentsOfAbsentBase(refs, ref.base);
      forall i | 0 <= i < |g'|
        ensures g'[i].fragments == FragmentsWithBase(refs', g'[i].base)
      {
        if i < |g| {
          assert g[i].base in Bases(g);
        }
      }
    } else {
      forall i | 0 <= i < |g'|
        ensures g'[i].fragments == FragmentsWithBase(refs', g'[i].base)
      {
        if i != k {
          assert Bases(g)[i] != Bases(g)[k];
        }
      }
    }
  }

  /**
    The grouping is the dictionary whose keys are the bases of the accepted
    references in first-seen order, each mapped to the fragments of the
    references with that base, in list order.
  */
  lemma {:induction false} GroupedSpec(fids: seq<Option<string>>)
    ensures GroupsOf(Grouped(fids), References(fids))
    decreases |fids|
  {
    if fids == [] {
      assert BasesOf([]) == [];
    } else {
      var init := fids[..|fids| - 1];
      GroupedSpec(init);
      match SplitReference(fids[|fids| - 1])
      case Some(ref) =>
        AddFragmentStep(Grouped(init), References(init), ref);
      case None =>
        assert References(fids) == References(init);
    }
  }
  /** The number of fragments over all entries. */
  function TotalFragments(groups: seq<Group>): nat
  {
    if groups == [] then 0 else |groups[0].fragments| + TotalFragments(groups[1..])
  }

  lemma {:induction false} TotalAppend(g: seq<Group>, x: Group)
    ensures TotalFragments(g + [x]) == TotalFragments(g) + |x.fragments|
  {
    if g != [] {
      assert (g + [x])[1..] == g[1..] + [x];
      TotalAppend(g[1..], x);
    }
  }

  lemma {:induction false} TotalUpdate(g: seq<Group>, k: nat, x: Group)
    requires k < |g|
    ensures TotalFragments(g[k := x]) == TotalFragments(g) - |g[k].fragments| + |x.fragments|
  {
    if k > 0 {
      assert g[k := x][1..] == g[1..][k - 1 := x];
      TotalUpdate(g[1..], k - 1, x);
    }
  }

  /**
    Every accepted reference contributes exactly one fragment: the total is
    the number of identifiers `split_reference` accepts.
  */
  lemma {:induction false} GroupedTotal(fids: seq<Option<string>>)
    ensures TotalFragments(Grouped(fids)) == |References(fids)|
    decreases |fids|
  {
    if fids != [] {
      var init := fids[..|fids| - 1];
      GroupedTotal(init);
      var g := Grouped(init);
      match SplitReference(fids[|fids| - 1])
      case Some(ref) =>
        var k := IndexOf(Bases(g), ref.base);
        if k < 0 {
          TotalAppend(g, Group(ref.base, [ref.fragment]));
        } else {
          TotalUpdate(g, k, g[k].(fragments := g[k].fragments + [ref.fragment]));
        }
      case None =>
    }
  }

  /**
    The grouping never holds more fragments than there are identifiers, and
    holds exactly as many when every identifier is present and has at most
    one `#`.
  */
  lemma {:induction false} GroupedCount(fids: seq<Option<string>>)
    ensures TotalFragments(Grouped(fids)) <= |fids|
    ensures (forall i :: 0 <= i < |fids| ==> fids[i].Some? && Count(fids[i].value, '#') <= 1) ==>
              TotalFragments(Grouped(fids)) == |fids|
    decreases |fids|
  {
    GroupedTotal(fids);
    if fids != [] && forall i :: 0 <= i < |fids| ==> fids[i].Some? && Count(fids[i].value, '#') <= 1 {
      var init := fids[..|fids| - 1];
      GroupedCount(init);
      GroupedTotal(init);
      SplitReferenceCases(fids[|fids| - 1]);
      CountZero(fids[|fids| - 1].value, '#');
    }
  }

  /** The grouping loop of `grouped_referenced_fragment_identifiers`. */
  method GroupFragments(fids: seq<Option<string>>) returns (grouped: seq<Group>)
    ensures grouped == Grouped(fids)
  {
    grouped := [];
    var i := 0;
    while i < |fids|
      invariant 0 <= i <= |fids|
      invariant grouped == Grouped(fids[..i])
    {
      assert fids[..i + 1][..i] == fids[..i];
      var dic := SplitReference(fids[i]);
      if dic.Some? {
        grouped := AddFragment(grouped, dic.value.base, dic.value.fragment);
      }
      i := i + 1;
    }
    assert fids[..i] == fids;
  }

  /**
    `grouped_referenced_fragment_identifiers`: the fragment identifiers of
    the document grouped by base; empty for a document without a body.
  */
  method GroupedReferencedFragmentIdentifiers(doc: MODocument) returns (grouped: seq<Group>)
    ensures grouped == Grouped(FragmentIds(doc))
    ensures GroupsOf(grouped, References(FragmentIds(doc)))
    ensures NoDuplicates(Bases(grouped))
    ensures TotalFragments(grouped) <= |FragmentIds(doc)|
  {
    var fis := ReferencedFragmentIdentifiers(doc);
    grouped := GroupFragments(fis);
    GroupedSpec(fis);
    InsertAllFacts([], BasesOf(References(fis)));
    GroupedCount(fis);
  }
}
