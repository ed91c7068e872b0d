/** What the compile cache knows a graph by: the words mixed into the signature and the
    fingerprint, and the key built on the signature. */
module GraphKeys {
  import opened Options

  type Word = w: int | 0 <= w < 0x1_0000_0000_0000_0000

  const MAX_DIMS := 4
  const MAX_SRC := 10

  /** A tensor as a graph refers to it. `params` are its operation's parameters. */
  datatype Tensor = Tensor(addr: Word, data: Word, op: Word, kind: Word, ne: seq<Word>, params: seq<int>, name: string)

  datatype Node = Node(tensor: Tensor, src: seq<Option<Tensor>>)

  datatype Graph = Graph(addr: Word, nodes: seq<Node>, inputs: seq<string>)

  predicate ValidTensor(t: Tensor) {
    |t.ne| == MAX_DIMS && t.op < 4096 && t.kind < 4096
  }

  predicate ValidSources(src: seq<Option<Tensor>>) {
    forall i :: 0 <= i < |src| && src[i].Some? ==> ValidTensor(src[i].value)
  }

  predicate ValidNode(n: Node) {
    ValidTensor(n.tensor) && |n.src| == MAX_SRC && ValidSources(n.src)
  }

  predicate ValidNodes(nodes: seq<Node>) {
    forall i :: 0 <= i < |nodes| ==> ValidNode(nodes[i])
  }

  /** Operations and types are small enumerations; the graph object lies above the
      first page. */
  predicate ValidGraph(g: Graph) {
    0 < |g.nodes| < 0x8000_0000 && ValidNodes(g.nodes) && g.addr >= 4096
  }

  // ---------- the words ----------

  function SourceWords(src: seq<Option<Tensor>>): seq<Word>
    requires ValidSources(src)
  {
    if |src| == 0 then []
    else
      (match src[0] case None => [0] case Some(t) => [t.kind + 1] + t.ne) + SourceWords(src[1..])
  }

  function NodeWords(n: Node): seq<Word>
    requires ValidNode(n)
  {
    [n.tensor.op, n.tensor.kind] + n.tensor.ne + SourceWords(n.src)
  }

  /** What the signature mixes, in order. */
  function SigWords(nodes: seq<Node>): seq<Word>
    requires ValidNodes(nodes)
  {
    if |nodes| == 0 then [] else NodeWords(nodes[0]) + SigWords(nodes[1..])
  }

  function SourceAddresses(src: seq<Option<Tensor>>): seq<Word> {
    if |src| == 0 then []
    else
      (match src[0] case None => [] case Some(t) => [t.addr, t.data]) + SourceAddresses(src[1..])
  }

  function NodeAddresses(n: Node): seq<Word> {
    [n.tensor.addr, n.tensor.data] + SourceAddresses(n.src)
  }

  function Addresses(nodes: seq<Node>): seq<Word> {
    if |nodes| == 0 then [] else NodeAddresses(nodes[0]) + Addresses(nodes[1..])
  }

  /** What the fingerprint mixes, in order. */
  function FpWords(g: Graph): seq<Word>
    requires ValidGraph(g)
  {
    SigWords(g.nodes) + [g.addr, |g.nodes|] + Addresses(g.nodes)
  }

  // ---------- what the words determine ----------

  datatype Shape = Shape(kind: Word, ne: seq<Word>)

  function SourceShapes(src: seq<Option<Tensor>>): (r: seq<Option<Shape>>)
    ensures |r| == |src|
  {
    seq(|src|, i requires 0 <= i < |src| =>
      match src[i] case None => None case Some(t) => Some(Shape(t.kind, t.ne)))
  }

  datatype NodeShape = NodeShape(op: Word, out: Shape, src: seq<Option<Shape>>)

  function ShapeOf(n: Node): NodeShape {
    NodeShape(n.tensor.op, Shape(n.tensor.kind, n.tensor.ne), SourceShapes(n.src))
  }

  /** Every node's operation, type and sizes, and every source's type and sizes. */
  function Shapes(nodes: seq<Node>): (r: seq<NodeShape>)
    ensures |r| == |nodes|
  {
    seq(|nodes|, i requires 0 <= i < |nodes| => ShapeOf(nodes[i]))
  }

  datatype Place = Place(addr: Word, data: Word)

  function SourcePlaces(src: seq<Option<Tensor>>): (r: seq<Option<Place>>)
    ensures |r| == |src|
  {
    seq(|src|, i requires 0 <= i < |src| =>
      match src[i] case None => None case Some(t) => Some(Place(t.addr, t.data)))
  }

  datatype NodePlace = NodePlace(out: Place, src: seq<Option<Place>>)

  function PlaceOf(n: Node): NodePlace {
    NodePlace(Place(n.tensor.addr, n.tensor.data), SourcePlaces(n.src))
  }

  function Places(nodes: seq<Node>): (r: seq<NodePlace>)
    ensures |r| == |nodes|
  {
    seq(|nodes|, i requires 0 <= i < |nodes| => PlaceOf(nodes[i]))
  }

  /** The tensors and buffers a decoder is bound to. */
  datatype Binding = Binding(graph: Word, places: seq<NodePlace>)

  function BindingOf(g: Graph): Binding {
    Binding(g.addr, Places(g.nodes))
  }

  lemma HeadsEqual(a: seq<Word>, x: seq<Word>, b: seq<Word>, y: seq<Word>)
    requires a + x == b + y && |a| == |b|
    ensures a == b && x == y
  {
    assert a == (a + x)[..|a|] && x == (a + x)[|a|..];
    assert b == (b + y)[..|b|] && y == (b + y)[|b|..];
  }

  lemma Reassociate(a: seq<Word>, b: seq<Word>, c: seq<Word>)
    ensures a + b + c == a + (b + c)
  {
  }

  lemma {:induction false} SourcesDecode(a: seq<Option<Tensor>>, x: seq<Word>, b: seq<Option<Tensor>>, y: seq<Word>)
    requires ValidSources(a) && ValidSources(b) && |a| == |b|
    requires SourceWords(a) + x == SourceWords(b) + y
    ensures SourceShapes(a) == SourceShapes(b) && x == y
    decreases |a|
  {
    if |a| > 0 {
      var p := match a[0] case None => [0] case Some(t) => [t.kind + 1] + t.ne;
      var q := match b[0] case None => [0] case Some(t) => [t.kind + 1] + t.ne;
      Reassociate(p, SourceWords(a[1..]), x);
      Reassociate(q, SourceWords(b[1..]), y);
      assert (SourceWords(a) + x)[0] == p[0] && (SourceWords(b) + y)[0] == q[0];
      HeadsEqual(p, SourceWords(a[1..]) + x, q, SourceWords(b[1..]) + y);
      SourcesDecode(a[1..], x, b[1..], y);
      SourceShapesStep(a, b);
    } else {
      assert [] + x == x && [] + y == y;
    }
  }

  lemma SourceShapesStep(a: seq<Option<Tensor>>, b: seq<Option<Tensor>>)
    requires |a| == |b| > 0 && ValidSources(a) && ValidSources(b)
    requires SourceShapes(a[1..]) == SourceShapes(b[1..])
    requires (match a[0] case None => [0] case Some(t) => [t.kind + 1] + t.ne)
             == (match b[0] case None => [0] case Some(t) => [t.kind + 1] + t.ne)
    ensures SourceShapes(a) == SourceShapes(b)
  {
    if a[0].Some? && b[0].Some? {
      assert ([a[0].value.kind + 1] + a[0].value.ne)[1..] == a[0].value.ne;
      assert ([b[0].value.kind + 1] + b[0].value.ne)[1..] == b[0].value.ne;
      assert ([a[0].value.kind + 1] + a[0].value.ne)[0] == ([b[0].value.kind + 1] + b[0].value.ne)[0];
    } else {
      assert a[0].None? && b[0].None?;
    }
    forall i | 0 <= i < |a| ensures SourceShapes(a)[i] == SourceShapes(b)[i] {
      if i > 0 {
        assert SourceShapes(a)[i] == SourceShapes(a[1..])[i - 1];
        assert SourceShapes(b)[i] == SourceShapes(b[1..])[i - 1];
      }
    }
  }

  lemma NodeDecodes(a: Node, x: seq<Word>, b: Node, y: seq<Word>)
    requires ValidNode(a) && ValidNode(b) && NodeWords(a) + x == NodeWords(b) + y
    ensures ShapeOf(a) == ShapeOf(b) && x == y
  {
    hide SourceWords, SourceShapes;
    var p, q := [a.tensor.op, a.tensor.kind], [b.tensor.op, b.tensor.kind];
    var s, t := SourceWords(a.src), SourceWords(b.src);
    assert NodeWords(a) + x == p + (a.tensor.ne + (s + x));
    assert NodeWords(b) + y == q + (b.tensor.ne + (t + y));
    HeadsEqual(p, a.tensor.ne + (s + x), q, b.tensor.ne + (t + y));
    HeadsEqual(a.tensor.ne, s + x, b.tensor.ne, t + y);
    assert p[0] == q[0] && p[1] == q[1];
    SourcesDecode(a.src, x, b.src, y);
  }

  /** The end of the node list is visible: what follows is no operation code. */
  predicate EndsNodes(x: seq<Word>) {
    |x| > 0 && x[0] >= 4096
  }

  /** The signature's words decode: followed by an address, they say how many nodes
      there are and what every node is. */
  lemma {:induction false} NodesDecode(a: seq<Node>, x: seq<Word>, b: seq<Node>, y: seq<Word>)
    requires ValidNodes(a) && ValidNodes(b) && EndsNodes(x) && EndsNodes(y)
    requires SigWords(a) + x == SigWords(b) + y
    ensures Shapes(a) == Shapes(b) && x == y
    decreases |a|
  {
    if |a| == 0 || |b| == 0 {
      assert [] + x == x && [] + y == y;
      FirstWord(a, x);
      FirstWord(b, y);
    } else {
      hide ShapeOf, NodeWords;
      Reassociate(NodeWords(a[0]), SigWords(a[1..]), x);
      Reassociate(NodeWords(b[0]), SigWords(b[1..]), y);
      NodeDecodes(a[0], SigWords(a[1..]) + x, b[0], SigWords(b[1..]) + y);
      NodesDecode(a[1..], x, b[1..], y);
      ShapesStep(a, b);
    }
  }

  lemma FirstWord(a: seq<Node>, x: seq<Word>)
    requires ValidNodes(a) && EndsNodes(x)
    ensures |SigWords(a) + x| > 0 && ((SigWords(a) + x)[0] < 4096 <==> |a| > 0)
  {
    if |a| > 0 {
      assert SigWords(a)[0] == NodeWords(a[0])[0] == a[0].tensor.op;
    }
  }

  lemma ShapesStep(a: seq<Node>, b: seq<Node>)
    requires |a| > 0 && |b| > 0 && ShapeOf(a[0]) == ShapeOf(b[0]) && Shapes(a[1..]) == Shapes(b[1..])
    ensures Shapes(a) == Shapes(b)
  {
    hide ShapeOf;
    assert |a| - 1 == |Shapes(a[1..])| == |Shapes(b[1..])| == |b| - 1;
    forall i | 0 <= i < |a| ensures Shapes(a)[i] == Shapes(b)[i] {
      if i > 0 {
        assert Shapes(a)[i] == Shapes(a[1..])[i - 1];
        assert Shapes(b)[i] == Shapes(b[1..])[i - 1];
      }
    }
  }

  lemma {:induction false} SourcePlacesDecode(a: seq<Option<Tensor>>, x: seq<Word>,
                                             b: seq<Option<Tensor>>, y: seq<Word>)
    requires |a| == |b| && forall i :: 0 <= i < |a| ==> (a[i].Some? <==> b[i].Some?)
    requires SourceAddresses(a) + x == SourceAddresses(b) + y
    ensures SourcePlaces(a) == SourcePlaces(b) && x == y
    decreases |a|
  {
    if |a| > 0 {
      var p := match a[0] case None => [] case Some(t) => [t.addr, t.data];
      var q := match b[0] case None => [] case Some(t) => [t.addr, t.data];
      Reassociate(p, SourceAddresses(a[1..]), x);
      Reassociate(q, SourceAddresses(b[1..]), y);
      HeadsEqual(p, SourceAddresses(a[1..]) + x, q, SourceAddresses(b[1..]) + y);
      SourcePlacesDecode(a[1..], x, b[1..], y);
      SourcePlacesStep(a, b);
    } else {
      assert [] + x == x && [] + y == y;
    }
  }

  lemma SourcePlacesStep(a: seq<Option<Tensor>>, b: seq<Option<Tensor>>)
    requires |a| == |b| > 0 && SourcePlaces(a[1..]) == SourcePlaces(b[1..])
    requires a[0].Some? <==> b[0].Some?
    requires (match a[0] case None => [] case Some(t) => [t.addr, t.data])
             == (match b[0] case None => [] case Some(t) => [t.addr, t.data])
    ensures SourcePlaces(a) == SourcePlaces(b)
  {
    if a[0].Some? {
      assert [a[0].value.addr, a[0].value.data][0] == [b[0].value.addr, b[0].value.data][0];
      assert [a[0].value.addr, a[0].value.data][1] == [b[0].value.addr, b[0].value.data][1];
    }
    forall i | 0 <= i < |a| ensures SourcePlaces(a)[i] == SourcePlaces(b)[i] {
      if i > 0 {
        assert SourcePlaces(a)[i] == SourcePlaces(a[1..])[i - 1];
        assert SourcePlaces(b)[i] == SourcePlaces(b[1..])[i - 1];
      }
    }
  }

  lemma NodePlaceDecodes(a: Node, x: seq<Word>, b: Node, y: seq<Word>)
    requires ValidNode(a) && ValidNode(b) && ShapeOf(a) == ShapeOf(b)
    requires NodeAddresses(a) + x == NodeAddresses(b) + y
    ensures PlaceOf(a) == PlaceOf(b) && x == y
  {
    forall i | 0 <= i < |a.src| ensures a.src[i].Some? <==> b.src[i].Some? {
      assert SourceShapes(a.src)[i] == SourceShapes(b.src)[i];
    }
    hide SourceAddresses, SourcePlaces, SourceShapes;
    var p, q := [a.tensor.addr, a.tensor.data], [b.tensor.addr, b.tensor.data];
    Reassociate(p, SourceAddresses(a.src), x);
    Reassociate(q, SourceAddresses(b.src), y);
    HeadsEqual(p, SourceAddresses(a.src) + x, q, SourceAddresses(b.src) + y);
    assert p[0] == q[0] && p[1] == q[1];
    SourcePlacesDecode(a.src, x, b.src, y);
  }

  lemma {:induction false} PlacesDecode(a: seq<Node>, b: seq<Node>)
    requires ValidNodes(a) && ValidNodes(b) && Shapes(a) == Shapes(b) && Addresses(a) == Addresses(b)
    ensures Places(a) == Places(b)
    decreases |a|
  {
    assert |a| == |Shapes(a)| == |b|;
    if |a| > 0 {
      assert Shapes(a)[0] == Shapes(b)[0];
      NodePlaceDecodes(a[0], Addresses(a[1..]), b[0], Addresses(b[1..]));
      assert Shapes(a[1..]) == Shapes(a)[1..] && Shapes(b[1..]) == Shapes(b)[1..];
      PlacesDecode(a[1..], b[1..]);
      PlacesStep(a, b);
    }
  }

  lemma PlacesStep(a: seq<Node>, b: seq<Node>)
    requires |a| == |b| > 0 && PlaceOf(a[0]) == PlaceOf(b[0]) && Places(a[1..]) == Places(b[1..])
    ensures Places(a) == Places(b)
  {
    hide PlaceOf;
    forall i | 0 <= i < |a| ensures Places(a)[i] == Places(b)[i] {
      if i > 0 {
        assert Places(a)[i] == Places(a[1..])[i - 1];
        assert Places(b)[i] == Places(b[1..])[i - 1];
      }
    }
  }

  /** The fingerprint's words determine the graph object, every shape, and every
      tensor and buffer. */
  lemma FingerprintWords(a: Graph, b: Graph)
    requires ValidGraph(a) && ValidGraph(b) && FpWords(a) == FpWords(b)
    ensures Shapes(a.nodes) == Shapes(b.nodes) && BindingOf(a) == BindingOf(b)
  {
    hide SigWords, Addresses, ValidNodes, Shapes, Places;
    var p, q := [a.addr, |a.nodes|], [b.addr, |b.nodes|];
    Reassociate(SigWords(a.nodes), p, Addresses(a.nodes));
    Reassociate(SigWords(b.nodes), q, Addresses(b.nodes));
    NodesDecode(a.nodes, p + Addresses(a.nodes), b.nodes, q + Addresses(b.nodes));
    HeadsEqual(p, Addresses(a.nodes), q, Addresses(b.nodes));
    assert p[0] == q[0];
    PlacesDecode(a.nodes, b.nodes);
  }

  /** The signature's words determine every shape. */
  lemma SignatureWords(a: seq<Node>, b: seq<Node>)
    requires ValidNodes(a) && ValidNodes(b) && SigWords(a) == SigWords(b)
    ensures Shapes(a) == Shapes(b)
  {
    NodesDecode(a, [4096], b, [4096]);
  }

  // ---------- the hash ----------

  /** One step of the 64-bit FNV-1a fold. */
  function Mix(h: Word, v: Word): Word {
    ((h as bv64 ^ v as bv64) as int * 1099511628211) % 0x1_0000_0000_0000_0000
  }

  const SEED: Word := 1469598103934665603

  function Fold(h: Word, words: seq<Word>): Word
    decreases |words|
  {
    if |words| == 0 then h else Fold(Mix(h, words[0]), words[1..])
  }

  lemma {:induction false} FoldAppend(h: Word, a: seq<Word>, b: seq<Word>)
    ensures Fold(h, a + b) == Fold(Fold(h, a), b)
    decreases |a|
  {
    hide Mix;
    if |a| == 0 {
      assert a + b == b;
    } else {
      assert (a + b)[1..] == a[1..] + b;
      FoldAppend(Mix(h, a[0]), a[1..], b);
    }
  }

  function Sig(g: Graph): Word
    requires ValidGraph(g)
  {
    Fold(SEED, SigWords(g.nodes))
  }

  function Fp(g: Graph): Word
    requires ValidGraph(g)
  {
    Fold(SEED, FpWords(g))
  }

  /** The node count, the end nodes' names, the inputs' names and the signature. */
  datatype Key = Key(n: nat, first: string, last: string, inputs: seq<string>, sig: Word)

  function KeyOf(g: Graph): Key
    requires ValidGraph(g)
  {
    Key(|g.nodes|, g.nodes[0].tensor.name, g.nodes[|g.nodes| - 1].tensor.name, g.inputs, Sig(g))
  }

  /** No two graphs of the set mix different words into one hash. */
  ghost predicate CollisionFree(graphs: set<Graph>) {
    forall a, b | a in graphs && b in graphs && ValidGraph(a) && ValidGraph(b) ::
      && (Sig(a) == Sig(b) ==> SigWords(a.nodes) == SigWords(b.nodes))
      && (Fp(a) == Fp(b) ==> FpWords(a) == FpWords(b))
  }

  // ---------- what the words leave out ----------

  /** The graph with other parameters on one operation. */
  function WithParams(g: Graph, i: nat, params: seq<int>): (r: Graph)
    requires i < |g.nodes|
  {
    g.(nodes := g.nodes[i := g.nodes[i].(tensor := g.nodes[i].tensor.(params := params))])
  }

  lemma {:induction false} WordsSame(a: seq<Node>, i: nat, n: Node)
    requires ValidNodes(a) && i < |a| && ValidNode(n)
    requires NodeWords(n) == NodeWords(a[i]) && NodeAddresses(n) == NodeAddresses(a[i])
    ensures ValidNodes(a[i := n]) && SigWords(a[i := n]) == SigWords(a) && Addresses(a[i := n]) == Addresses(a)
    decreases i
  {
    hide NodeWords, NodeAddresses;
    if i == 0 {
      assert a[i := n][1..] == a[1..];
    } else {
      assert a[i := n][1..] == a[1..][i - 1 := n];
      WordsSame(a[1..], i - 1, n);
    }
  }

  /** Neither the key nor the fingerprint sees an operation's parameters. */
  lemma ParamsUnseen(g: Graph, i: nat, params: seq<int>)
    requires ValidGraph(g) && i < |g.nodes|
    ensures var r := WithParams(g, i, params);
            ValidGraph(r) && KeyOf(r) == KeyOf(g) && Fp(r) == Fp(g) && BindingOf(r) == BindingOf(g)
  {
    hide Mix, Fold, SigWords, Addresses, SourceWords, SourceAddresses, SourcePlaces;
    var n := g.nodes[i].(tensor := g.nodes[i].tensor.(params := params));
    assert ValidNode(g.nodes[i]);
    WordsSame(g.nodes, i, n);
    assert Places(g.nodes[i := n]) == Places(g.nodes);
  }

  // ---------- the loops ----------

  method MixAll(h0: Word, words: seq<Word>) returns (h: Word)
    ensures h == Fold(h0, words)
  {
    hide Mix;
    h := h0;
    for d := 0 to |words|
      invariant Fold(h, words[d..]) == Fold(h0, words)
    {
      assert words[d..][0] == words[d] && words[d..][1..] == words[d + 1..];
      h := Mix(h, words[d]);
    }
  }

  method MixSources(h0: Word, src: seq<Option<Tensor>>) returns (h: Word)
    requires ValidSources(src)
    ensures h == Fold(h0, SourceWords(src))
  {
    hide Mix, Fold;
    h := h0;
    for s := 0 to |src|
      invariant Fold(h, SourceWords(src[s..])) == Fold(h0, SourceWords(src))
    {
      ghost var rest := SourceWords(src[s + 1..]);
      assert src[s..][0] == src[s] && src[s..][1..] == src[s + 1..];
      ghost var was := h;
      if src[s].Some? {
        var t := src[s].value;
        FoldAppend(was, [t.kind + 1] + t.ne, rest);
        FoldAppend(was, [t.kind + 1], t.ne);
        h := MixAll(h, [t.kind + 1]);
        h := MixAll(h, t.ne);
      } else {
        FoldAppend(was, [0], rest);
        h := MixAll(h, [0]);
      }
    }
    FoldEmpty(h);
  }

  lemma FoldEmpty(h: Word)
    ensures Fold(h, []) == h
  {
  }

  /** The signature loop. */
  method GraphSig(g: Graph) returns (h: Word)
    requires ValidGraph(g)
    ensures h == Sig(g)
  {
    hide Mix, Fold, SourceWords;
    h := SEED;
    for i := 0 to |g.nodes|
      invariant Fold(h, SigWords(g.nodes[i..])) == Sig(g)
    {
      assert g.nodes[i..][0] == g.nodes[i] && g.nodes[i..][1..] == g.nodes[i + 1..];
      FoldAppend(h, NodeWords(g.nodes[i]), SigWords(g.nodes[i + 1..]));
      h := MixNode(h, g.nodes[i]);
    }
    FoldEmpty(h);
  }

  method MixNode(h0: Word, n: Node) returns (h: Word)
    requires ValidNode(n)
    ensures h == Fold(h0, NodeWords(n))
  {
    hide Mix, Fold, SourceWords;
    var p := [n.tensor.op, n.tensor.kind];
    FoldAppend(h0, p + n.tensor.ne, SourceWords(n.src));
    FoldAppend(h0, p, n.tensor.ne);
    h := MixAll(h0, p);
    h := MixAll(h, n.tensor.ne);
    h := MixSources(h, n.src);
  }

  method MixSourceAddresses(h0: Word, src: seq<Option<Tensor>>) returns (h: Word)
    ensures h == Fold(h0, SourceAddresses(src))
  {
    hide Mix, Fold;
    h := h0;
    for s := 0 to |src|
      invariant Fold(h, SourceAddresses(src[s..])) == Fold(h0, SourceAddresses(src))
    {
      ghost var rest := SourceAddresses(src[s + 1..]);
      assert src[s..][0] == src[s] && src[s..][1..] == src[s + 1..];
      if src[s].Some? {
        var t := src[s].value;
        FoldAppend(h, [t.addr, t.data], rest);
        h := MixAll(h, [t.addr, t.data]);
      } else {
        assert [] + rest == rest;
      }
    }
    FoldEmpty(h);
  }

  /** The fingerprint loop. */
  method GraphFp(g: Graph) returns (h: Word)
    requires ValidGraph(g)
    ensures h == Fp(g)
  {
    hide Mix, Fold, SourceAddresses, SigWords;
    h := GraphSig(g);
    var p := [g.addr, |g.nodes|];
    FoldAppend(SEED, SigWords(g.nodes) + p, Addresses(g.nodes));
    FoldAppend(SEED, SigWords(g.nodes), p);
    h := MixAll(h, p);
    for i := 0 to |g.nodes|
      invariant Fold(h, Addresses(g.nodes[i..])) == Fp(g)
    {
      ghost var rest := Addresses(g.nodes[i + 1..]);
      assert g.nodes[i..][0] == g.nodes[i] && g.nodes[i..][1..] == g.nodes[i + 1..];
      var n := g.nodes[i];
      FoldAppend(h, NodeAddresses(n), rest);
      FoldAppend(h, [n.tensor.addr, n.tensor.data], SourceAddresses(n.src));
      h := MixAll(h, [n.tensor.addr, n.tensor.data]);
      h := MixSourceAddresses(h, n.src);
    }
    FoldEmpty(h);
  }
}
