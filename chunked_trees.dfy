/** hazm/corpus_readers/treebank_reader.py, `TreebankReader.chunked_trees`:
    a treebank syntax tree is flattened into a tree `S` whose children are
    chunks (NP, VP, PP, POSTP, ADJP, ADVP, ...) over the words of the
    sentence, plus the bare punctuation and conjunction leaves.

    `traverse` walks the tree and appends to a shared list; it is modelled
    by the class `ChunkList`, whose field `chunks` is that list, and its
    method `Traverse` is proved against the function `Chunks`. `Classify`
    is the rule cascade that decides, for one node, whether it becomes a
    chunk or is descended into. The final loop, which rewrites every chunk
    in place, is `ChunkList.Finish`, proved against `FinishAll`. Python
    exceptions (`label()` of a leaf tuple, `node[0]` of an empty node, the
    root parent `None`) are `None`. */
module TreebankChunks {
  import opened Options
  import opened Strings
  import opened Seqs

  // ---------------------------------------------------------------------
  // Trees
  // ---------------------------------------------------------------------

  /** A treebank tree: a labelled node over children, or a leaf, the
      `(word, tag)` tuple of one word. */
  datatype Tree = Leaf(word: string, tag: string) | Node(name: string, kids: seq<Tree>)

  /** nltk's `leaves()`: the leaf tuples, left to right. */
  function Leaves(t: Tree): seq<Tree>
    decreases t
  {
    match t
    case Leaf(_, _) => [t]
    case Node(_, kids) => LeavesOf(kids)
  }

  /** The leaves of a sequence of trees, left to right. */
  function LeavesOf(ts: seq<Tree>): seq<Tree>
    decreases ts
  {
    if ts == [] then [] else Leaves(ts[0]) + LeavesOf(ts[1..])
  }

  /** nltk's `pos()` of the children `kids` of a node labelled `parent`:
      every leaf paired with the label of the node directly above it. */
  function PosOf(kids: seq<Tree>, parent: string): seq<(Tree, string)>
    decreases kids
  {
    if kids == [] then []
    else
      var first := match kids[0]
        case Leaf(_, _) => [(kids[0], parent)]
        case Node(name, ks) => PosOf(ks, name);
      first + PosOf(kids[1..], parent)
  }

  /** The preterminal labels that make a node be descended into rather
      than chunked whole. */
  predicate IsStopLabel(l: string)
  {
    l == "PUNC" || l == "CONJ" || l == "PREP" || l == "PostP"
  }

  /** Some pair of `ps` has a stop label. */
  predicate AnyStop(ps: seq<(Tree, string)>): (r: bool)
    ensures r <==> exists i :: 0 <= i < |ps| && IsStopLabel(ps[i].1)
  {
    ps != [] && (IsStopLabel(ps[0].1) || AnyStop(ps[1..]))
  }

  /** Some leaf of the node sits directly under a stop label. */
  predicate HasStop(t: Tree)
    requires t.Node?
  {
    AnyStop(PosOf(t.kids, t.name))
  }

  /** Every leaf of `pos()` wrapped in a node with the label above it. */
  function Preterminals(ps: seq<(Tree, string)>): (r: seq<Tree>)
    ensures |r| == |ps|
    ensures forall i :: 0 <= i < |ps| ==> r[i] == Node(ps[i].1, [ps[i].0])
  {
    if ps == [] then [] else [Node(ps[0].1, [ps[0].0])] + Preterminals(ps[1..])
  }

  /** `collapse(node, label)`: one node labelled `label` over a
      preterminal for every leaf of `node`. */
  function Collapse(t: Tree, cat: string): Tree
    requires t.Node?
  {
    Node(cat, Preterminals(PosOf(t.kids, t.name)))
  }

  // ---------------------------------------------------------------------
  // The rule cascade of `traverse`
  // ---------------------------------------------------------------------

  /** The label with every "-nid" removed (twice) and then every "-DiscA". */
  function NormalizeLabel(raw: string): string
  {
    RemoveAll(RemoveAll(RemoveAll(raw, "-nid"), "-nid"), "-DiscA")
  }

  /** A CLITIC or CLITICS node is relabelled after the tag of its first
      leaf; `node[0][1]` raises on a node without children and on a first
      child that is a node with fewer than two children. */
  function RelabelClitic(cat: string, kids: seq<Tree>): (r: Option<string>)
    ensures r.None? <==>
              (cat == "CLITIC" || cat == "CLITICS")
              && (kids == [] || (kids[0].Node? && |kids[0].kids| < 2))
    ensures r.Some? && r.value != cat ==>
              && (cat == "CLITIC" || cat == "CLITICS") && kids[0].Leaf?
              && r.value in {"V", "PREP", "DET", "ADV", "PRON"}
    ensures (cat == "CLITIC" || cat == "CLITICS") && kids != [] && kids[0].Leaf? ==>
              && (kids[0].tag == "V" ==> r == Some("V"))
              && (kids[0].tag == "P" ==> r == Some("PREP"))
              && (kids[0].tag == "DET" ==> r == Some("DET"))
              && (kids[0].tag == "ADV" ==> r == Some("ADV"))
              && (kids[0].tag == "PRO" ==> r == Some("PRON"))
              && (kids[0].tag !in {"V", "P", "DET", "ADV", "PRO"} ==> r == Some(cat))
  {
    if cat != "CLITIC" && cat != "CLITICS" then Some(cat)
    else if kids == [] then None
    else match kids[0]
      case Leaf(_, tag) =>
        if tag == "V" then Some("V")
        else if tag == "P" then Some("PREP")
        else if tag == "DET" then Some("DET")
        else if tag == "ADV" then Some("ADV")
        else if tag == "PRO" then Some("PRON")
        else Some(cat)
      case Node(_, ks) =>
        if |ks| < 2 then None else Some(cat)
  }

  /** The label the cascade tests: normalised, then clitic-relabelled. */
  function Label(t: Tree): Option<string>
    requires t.Node?
  {
    RelabelClitic(NormalizeLabel(t.name), t.kids)
  }

  /** What `traverse` does with one node: append one chunk, or descend
      into the children. */
  datatype Step = Append(chunk: Tree) | Descend

  /** Labels collapsed into an NP chunk. */
  predicate IsNounLabel(l: string)
  {
    l in {"NPC", "N", "INFV", "DPA", "CLASS", "DPC", "DEM", "INTJ", "MN", "PRON", "DET", "NUM", "RES"}
  }

  predicate IsVerbLabel(l: string)
  {
    l in {"MV", "V", "AUX", "PPARV"}
  }

  predicate IsAdjLabel(l: string)
  {
    l in {"ADJ", "ADJPC", "MADJ", "ADVPA"}
  }

  predicate IsAdvLabel(l: string)
  {
    l in {"ADV", "MADV", "ADVPC"}
  }

  /** The label pairs of the first two children for which an NPA node is
      one NP. */
  predicate NpaPair(a: string, b: string)
  {
    || (a == "ADJ" && b == "NPC")
    || (a in {"N", "PRON"} && b in {"ADJ", "ADJPA", "N"})
    || (a == "NUM" && b in {"N", "NPC", "MN", "NUM"})
    || (a in {"N", "NPC", "MN"} && b == "NUM")
    || (a == "NPC" && b == "ADJ")
    || (a == "NPA" && b != "NPC")
    || (b == "NPA" && a != "NPC")
  }

  /** The rules tried before the stop-leaf test: a lone conjunction or
      punctuation node, a one-child PPC, a PREP and a PostP. */
  function EarlyRule(t: Tree, cat: string): Option<Step>
    requires t.Node?
  {
    if (cat == "CONJ" || cat == "PUNC") && |t.kids| == 1 then Some(Append(t))
    else if cat == "PPC" && |t.kids| == 1 then Some(Append(Node("PP", [t.kids[0]])))
    else if cat == "PREP" then Some(Append(Node("PP", [t])))
    else if cat == "PostP" then Some(Append(Node("POSTP", [t])))
    else None
  }

  /** The NP rules: NPA under a CPC or PPC, NPA starting with ADV, the NP
      labels, and NPA with a listed pair of first children. `None` is a
      Python exception; `Some(None)` lets the cascade go on. */
  function NounRule(t: Tree, cat: string, parent: Option<string>): Option<Option<Step>>
    requires t.Node?
  {
    var kids := t.kids;
    if cat == "NPA" && parent.None? then None
    else if cat == "NPA" && parent.value in {"CPC", "PPC"} then Some(Some(Append(Collapse(t, "NP"))))
    else if cat == "NPA" && |kids| >= 1 && kids[0].Leaf? then None
    else if cat == "NPA" && |kids| >= 1 && kids[0].name == "ADV" then Some(Some(Append(Collapse(t, "NP"))))
    else if IsNounLabel(cat) then Some(Some(Append(Collapse(t, "NP"))))
    else if cat == "NPA" && |kids| >= 2 && (kids[0].Leaf? || kids[1].Leaf?) then None
    else if cat == "NPA" && |kids| >= 2 && NpaPair(kids[0].name, kids[1].name) then Some(Some(Append(Collapse(t, "NP"))))
    else Some(None)
  }

  /** The rules after the NP rules: VP, ADJP, ADVP wrappers, a node whose
      first child is a leaf, else descent; `node[0]` of an empty node raises. */
  function LateRule(t: Tree, cat: string): Option<Step>
    requires t.Node?
  {
    if IsVerbLabel(cat) then Some(Append(Node("VP", [t])))
    else if IsAdjLabel(cat) then Some(Append(Node("ADJP", [t])))
    else if IsAdvLabel(cat) then Some(Append(Node("ADVP", [t])))
    else if t.kids == [] then None
    else if t.kids[0].Leaf? then Some(Append(t))
    else Some(Descend)
  }

  /** The whole cascade for one node, whose parent has the raw label
      `parent` (`None` at the root). */
  function Classify(t: Tree, parent: Option<string>): Option<Step>
    requires t.Node?
  {
    match Label(t)
    case None => None
    case Some(cat) =>
      if EarlyRule(t, cat).Some? then EarlyRule(t, cat)
      else if HasStop(t) then Some(Descend)
      else match NounRule(t, cat, parent)
        case None => None
        case Some(Some(step)) => Some(step)
        case Some(None) => LateRule(t, cat)
  }

  /** The chunks `traverse(t, parent, chunks)` appends, in order; `None`
      when it raises (a leaf tuple has no `label()`). */
  function Chunks(t: Tree, parent: Option<string>): Option<seq<Tree>>
    decreases t
  {
    match t
    case Leaf(_, _) => None
    case Node(name, kids) =>
      match Classify(t, parent)
      case None => None
      case Some(Append(c)) => Some([c])
      case Some(Descend) => ChunksOfKids(kids, name)
  }

  /** The chunks of the children of a node labelled `parent`, in order. */
  function ChunksOfKids(kids: seq<Tree>, parent: string): Option<seq<Tree>>
    decreases kids
  {
    if kids == [] then Some([])
    else match Chunks(kids[0], Some(parent))
      case None => None
      case Some(a) => Prepend(a, ChunksOfKids(kids[1..], parent))
  }

  /** `a` followed by the chunks of `rest`, unless that raised. */
  function Prepend(a: seq<Tree>, rest: Option<seq<Tree>>): Option<seq<Tree>>
  {
    match rest
    case None => None
    case Some(b) => Some(a + b)
  }

  // ---------------------------------------------------------------------
  // The final loop
  // ---------------------------------------------------------------------

  /** A PUNC or CONJ chunk becomes its first child; any other chunk becomes
      a node with its label over its leaves. */
  function FinishChunk(c: Tree): Option<Tree>
  {
    match c
    case Leaf(_, _) => None
    case Node(name, kids) =>
      if name == "PUNC" || name == "CONJ" then
        if kids == [] then None else Some(kids[0])
      else Some(Node(name, Leaves(c)))
  }

  /** Every chunk finished, in order. */
  function FinishAll(cs: seq<Tree>): Option<seq<Tree>>
  {
    if cs == [] then Some([])
    else match FinishChunk(cs[0])
      case None => None
      case Some(f) => Prepend([f], FinishAll(cs[1..]))
  }

  /** One tree of `chunked_trees()`: `S` over the finished chunks of the
      treebank tree `t`. */
  function ChunkedTree(t: Tree): Option<Tree>
  {
    match Chunks(t, None)
    case None => None
    case Some(cs) =>
      match FinishAll(cs)
      case None => None
      case Some(fs) => Some(Node("S", fs))
  }

  // ---------------------------------------------------------------------
  // Leaves
  // ---------------------------------------------------------------------

  /** Only leaf tuples. */
  predicate AllLeaf(ts: seq<Tree>)
  {
    forall i :: 0 <= i < |ts| ==> ts[i].Leaf?
  }

  lemma {:induction false} LeavesOfAppend(a: seq<Tree>, b: seq<Tree>)
    ensures LeavesOf(a + b) == LeavesOf(a) + LeavesOf(b)
    decreases |a|
  {
    if a == [] {
      assert a + b == b;
    } else {
      assert (a + b)[0] == a[0] && (a + b)[1..] == a[1..] + b;
      LeavesOfAppend(a[1..], b);
      Associative(Leaves(a[0]), LeavesOf(a[1..]), LeavesOf(b));
    }
  }

  /** The leaves of one tree, seen as a sequence of one tree. */
  lemma LeavesOfOne(t: Tree)
    ensures LeavesOf([t]) == Leaves(t)
  {
    assert [t][1..] == [];
    AppendEmpty(Leaves(t));
  }

  /** `leaves()` returns leaf tuples only. */
  lemma {:induction false} LeavesAreLeaf(t: Tree)
    ensures AllLeaf(Leaves(t))
    decreases t, 1
  {
    if t.Node? {
      LeavesOfAreLeaf(t.kids);
    }
  }

  lemma {:induction false} LeavesOfAreLeaf(ts: seq<Tree>)
    ensures AllLeaf(LeavesOf(ts))
    decreases ts, 0
  {
    if ts != [] {
      LeavesAreLeaf(ts[0]);
      LeavesOfAreLeaf(ts[1..]);
    }
  }

  /** A sequence of leaf tuples is its own list of leaves. */
  lemma {:induction false} LeavesOfLeafs(ts: seq<Tree>)
    requires AllLeaf(ts)
    ensures LeavesOf(ts) == ts
  {
    if ts != [] {
      assert ts[0].Leaf?;
      LeavesOfLeafs(ts[1..]);
      assert [ts[0]] + ts[1..] == ts;
    }
  }

  /** The leaves of the pairs of `pos()` are the leaves of the node. */
  lemma {:induction false} PosKeepsLeaves(kids: seq<Tree>, parent: string)
    ensures LeavesOf(Firsts(PosOf(kids, parent))) == LeavesOf(kids)
    decreases kids
  {
    if kids != [] {
      var first := match kids[0]
        case Leaf(_, _) => [(kids[0], parent)]
        case Node(name, ks) => PosOf(ks, name);
      var rest := PosOf(kids[1..], parent);
      FirstsAppend(first, rest);
      LeavesOfAppend(Firsts(first), Firsts(rest));
      PosKeepsLeaves(kids[1..], parent);
      match kids[0] {
        case Leaf(_, _) =>
          assert Firsts(first) == [kids[0]];
          LeavesOfOne(kids[0]);
        case Node(name, ks) =>
          PosKeepsLeaves(ks, name);
      }
    }
  }

  /** The leaves of the pairs, in order. */
  function Firsts(ps: seq<(Tree, string)>): (r: seq<Tree>)
    ensures |r| == |ps|
    ensures forall i :: 0 <= i < |ps| ==> r[i] == ps[i].0
  {
    if ps == [] then [] else [ps[0].0] + Firsts(ps[1..])
  }

  lemma {:induction false} FirstsAppend(a: seq<(Tree, string)>, b: seq<(Tree, string)>)
    ensures Firsts(a + b) == Firsts(a) + Firsts(b)
    decreases |a|
  {
    if a == [] {
      assert a + b == b;
    } else {
      assert (a + b)[0] == a[0] && (a + b)[1..] == a[1..] + b;
      FirstsAppend(a[1..], b);
      Associative([a[0].0], Firsts(a[1..]), Firsts(b));
    }
  }

  /** Wrapping every leaf of the pairs in a preterminal keeps the leaves. */
  lemma {:induction false} PreterminalsKeepLeaves(ps: seq<(Tree, string)>)
    ensures LeavesOf(Preterminals(ps)) == LeavesOf(Firsts(ps))
  {
    if ps != [] {
      var p := Node(ps[0].1, [ps[0].0]);
      var pre := [p] + Preterminals(ps[1..]);
      assert pre[0] == p && pre[1..] == Preterminals(ps[1..]);
      LeavesOfOne(ps[0].0);
      PreterminalsKeepLeaves(ps[1..]);
      var fs := [ps[0].0] + Firsts(ps[1..]);
      assert fs[0] == ps[0].0 && fs[1..] == Firsts(ps[1..]);
    }
  }

  /** `collapse` keeps the leaves of the node, in order. */
  lemma CollapseKeepsLeaves(t: Tree, cat: string)
    requires t.Node?
    ensures Leaves(Collapse(t, cat)) == Leaves(t)
  {
    PreterminalsKeepLeaves(PosOf(t.kids, t.name));
    PosKeepsLeaves(t.kids, t.name);
  }

  // ---------------------------------------------------------------------
  // What the cascade appends
  // ---------------------------------------------------------------------

  predicate IsPuncConj(n: string)
  {
    n == "PUNC" || n == "CONJ"
  }

  /** A chunk the final loop can rewrite: a node, and one labelled PUNC or
      CONJ has exactly one child. */
  predicate GoodChunk(c: Tree)
  {
    c.Node? && (IsPuncConj(c.name) ==> |c.kids| == 1)
  }

  predicate AllGood(cs: seq<Tree>)
  {
    forall i :: 0 <= i < |cs| ==> GoodChunk(cs[i])
  }

  /** A PUNC or CONJ node sits directly over leaf tuples. */
  predicate StopsOverLeaves(t: Tree)
  {
    t.Node? && IsPuncConj(t.name) ==> AllLeaf(t.kids)
  }

  predicate AllStopsOverLeaves(cs: seq<Tree>)
  {
    forall i :: 0 <= i < |cs| ==> StopsOverLeaves(cs[i])
  }

  /** Every PUNC and CONJ node of the tree is a preterminal, as in the
      treebank, where they are built over one `(word, tag)` leaf. */
  predicate Tidy(t: Tree)
    decreases t
  {
    StopsOverLeaves(t) && (t.Node? ==> forall i :: 0 <= i < |t.kids| ==> Tidy(t.kids[i]))
  }

  /** A node labelled with a stop label over a leaf has a stop leaf. */
  lemma FirstLeafStop(t: Tree)
    requires t.Node? && t.kids != [] && t.kids[0].Leaf? && IsStopLabel(t.name)
    ensures HasStop(t)
  {
    var ps := PosOf(t.kids, t.name);
    assert ps == [(t.kids[0], t.name)] + PosOf(t.kids[1..], t.name);
    assert ps[0].1 == t.name;
  }

  lemma EarlyChunk(t: Tree, cat: string, c: Tree)
    requires t.Node? && EarlyRule(t, cat) == Some(Append(c))
    ensures Leaves(c) == Leaves(t) && GoodChunk(c)
    ensures StopsOverLeaves(t) ==> StopsOverLeaves(c)
  {
    LeavesOfOne(t);
    if |t.kids| == 1 {
      LeavesOfOne(t.kids[0]);
      assert t.kids == [t.kids[0]];
    }
  }

  lemma NounChunk(t: Tree, cat: string, parent: Option<string>, c: Tree)
    requires t.Node? && NounRule(t, cat, parent) == Some(Some(Append(c)))
    ensures c == Collapse(t, "NP")
  {
  }

  lemma LateChunk(t: Tree, cat: string, c: Tree)
    requires t.Node? && LateRule(t, cat) == Some(Append(c))
    ensures || (c == t && t.kids != [] && t.kids[0].Leaf?)
            || (c.Node? && c.kids == [t] && c.name in {"VP", "ADJP", "ADVP"})
  {
  }

  /** An appended chunk has the leaves of its node, and is one the final
      loop can rewrite. */
  lemma AppendedChunk(t: Tree, parent: Option<string>, c: Tree)
    requires t.Node? && Classify(t, parent) == Some(Append(c))
    ensures Leaves(c) == Leaves(t) && GoodChunk(c)
    ensures StopsOverLeaves(t) ==> StopsOverLeaves(c)
  {
    var cat := Label(t).value;
    if EarlyRule(t, cat).Some? {
      EarlyChunk(t, cat, c);
    } else {
      assert !HasStop(t);
      var n := NounRule(t, cat, parent).value;
      if n.Some? {
        NounChunk(t, cat, parent, c);
        CollapseKeepsLeaves(t, "NP");
      } else {
        LateChunk(t, cat, c);
        if c == t {
          if IsPuncConj(t.name) {
            FirstLeafStop(t);
            assert false;
          }
        } else {
          LeavesOfOne(t);
        }
      }
    }
  }

  // ---------------------------------------------------------------------
  // What `traverse` appends, and what the final loop makes of it
  // ---------------------------------------------------------------------

  /** The chunks of a tree hold its leaves, in order; the final loop can
      rewrite every one; and in a tidy tree every PUNC or CONJ chunk sits
      over leaves. */
  lemma {:induction false} ChunksFacts(t: Tree, parent: Option<string>)
    requires Chunks(t, parent).Some?
    ensures LeavesOf(Chunks(t, parent).value) == Leaves(t)
    ensures AllGood(Chunks(t, parent).value)
    ensures Tidy(t) ==> AllStopsOverLeaves(Chunks(t, parent).value)
    decreases t, 1
  {
    match Classify(t, parent).value {
      case Append(c) =>
        AppendedChunk(t, parent, c);
        LeavesOfOne(c);
      case Descend =>
        ChunksOfKidsFacts(t.kids, t.name);
    }
  }

  lemma {:induction false} ChunksOfKidsFacts(kids: seq<Tree>, parent: string)
    requires ChunksOfKids(kids, parent).Some?
    ensures LeavesOf(ChunksOfKids(kids, parent).value) == LeavesOf(kids)
    ensures AllGood(ChunksOfKids(kids, parent).value)
    ensures (forall i :: 0 <= i < |kids| ==> Tidy(kids[i])) ==>
              AllStopsOverLeaves(ChunksOfKids(kids, parent).value)
    decreases kids, 0
  {
    if kids != [] {
      var a := Chunks(kids[0], Some(parent)).value;
      var b := ChunksOfKids(kids[1..], parent).value;
      ChunksFacts(kids[0], Some(parent));
      ChunksOfKidsFacts(kids[1..], parent);
      LeavesOfAppend(a, b);
    }
  }

  /** At most one level: a leaf tuple, or a node over leaf tuples. */
  predicate Flat(t: Tree)
  {
    t.Leaf? || AllLeaf(t.kids)
  }

  /** The final loop keeps the leaves of a chunk, and flattens it when it
      is not a PUNC or CONJ chunk over a node. */
  lemma FinishChunkFacts(c: Tree)
    requires GoodChunk(c)
    ensures FinishChunk(c).Some?
    ensures Leaves(FinishChunk(c).value) == Leaves(c)
    ensures StopsOverLeaves(c) ==> Flat(FinishChunk(c).value)
  {
    if IsPuncConj(c.name) {
      assert c.kids == [c.kids[0]];
      LeavesOfOne(c.kids[0]);
    } else {
      LeavesAreLeaf(c);
      LeavesOfLeafs(Leaves(c));
    }
  }

  /** The final loop never raises on the chunks of `traverse`, and keeps
      their leaves. */
  lemma {:induction false} FinishAllFacts(cs: seq<Tree>)
    requires AllGood(cs)
    ensures FinishAll(cs).Some?
    ensures |FinishAll(cs).value| == |cs|
    ensures LeavesOf(FinishAll(cs).value) == LeavesOf(cs)
    ensures AllStopsOverLeaves(cs) ==>
              forall i :: 0 <= i < |cs| ==> Flat(FinishAll(cs).value[i])
  {
    if cs != [] {
      assert GoodChunk(cs[0]);
      FinishChunkFacts(cs[0]);
      var f := FinishChunk(cs[0]).value;
      FinishAllFacts(cs[1..]);
      var rest := FinishAll(cs[1..]).value;
      LeavesOfAppend([f], rest);
      LeavesOfOne(f);
    }
  }

  /** `chunked_trees` keeps the words: the leaves of the `S` tree are the
      leaves of the treebank tree, in order. */
  lemma ChunkedTreeKeepsLeaves(t: Tree)
    requires ChunkedTree(t).Some?
    ensures ChunkedTree(t).value.name == "S"
    ensures Leaves(ChunkedTree(t).value) == Leaves(t)
  {
    var cs := Chunks(t, None).value;
    ChunksFacts(t, None);
    FinishAllFacts(cs);
  }

  /** Only `traverse` can raise: the final loop always succeeds on what it
      appended. */
  lemma ChunkedTreeFailsOnlyInTraverse(t: Tree)
    ensures ChunkedTree(t).Some? <==> Chunks(t, None).Some?
  {
    if Chunks(t, None).Some? {
      ChunksFacts(t, None);
      FinishAllFacts(Chunks(t, None).value);
    }
  }

  /** On a tree whose PUNC and CONJ nodes are preterminals, the `S` tree
      is flat: each child is a leaf tuple or a chunk over leaf tuples, so
      no chunk contains a chunk. */
  lemma ChunkedTreeFlat(t: Tree)
    requires Tidy(t) && ChunkedTree(t).Some?
    ensures forall i :: 0 <= i < |ChunkedTree(t).value.kids| ==> Flat(ChunkedTree(t).value.kids[i])
  {
    var cs := Chunks(t, None).value;
    ChunksFacts(t, None);
    FinishAllFacts(cs);
  }

  // ---------------------------------------------------------------------
  // The rules, one by one
  // ---------------------------------------------------------------------

  /** Normalisation strips a trailing "-nid" or "-DiscA" from a plain
      label and leaves a plain label alone. */
  lemma NormalizeLabelDropsMarkers(base: string)
    requires '-' !in base
    ensures NormalizeLabel(base) == base
    ensures NormalizeLabel(base + "-nid") == base
    ensures NormalizeLabel(base + "-DiscA") == base
  {
    assert "-nid"[0] == '-' && "-DiscA"[0] == '-';
    RemoveAllDashFree(base, "-nid");
    RemoveAllDashFree(base, "-DiscA");
    var tail := "DiscA";
    var x := base + "-DiscA";
    assert x == base + "-" + tail && '-' !in tail;
    forall k | 0 <= k < |x| ensures !MatchAt(x + [], k, "-nid") {
      assert x + [] == x;
      if k < |base| {
        assert x[k] == base[k];
        NoMatchAtChar(x, k, "-nid", 0);
      } else if k == |base| {
        assert x[k + 1] == 'D';
        NoMatchAtChar(x, k, "-nid", 1);
      } else {
        assert x[k] == tail[k - |base| - 1];
        NoMatchAtChar(x, k, "-nid", 0);
      }
    }
    RemoveAllKeepsPrefix(x, [], "-nid");
    assert x + [] == x;
  }

  /** The relabellings decided before the stop-leaf test: a one-child PPC
      becomes a PP over its child, PREP a PP and PostP a POSTP over the
      node. */
  lemma EarlyRelabels(t: Tree, parent: Option<string>)
    requires t.Node? && Label(t).Some?
    ensures var l := Label(t).value;
            && (l == "PPC" && |t.kids| == 1 ==> Classify(t, parent) == Some(Append(Node("PP", t.kids))))
            && (l == "PREP" ==> Classify(t, parent) == Some(Append(Node("PP", [t]))))
            && (l == "PostP" ==> Classify(t, parent) == Some(Append(Node("POSTP", [t]))))
  {
    if |t.kids| == 1 {
      assert t.kids == [t.kids[0]];
    }
  }

  /** The labels of the four early rules and of the NPA rules. */
  predicate IsEarlyLabel(l: string)
  {
    l in {"CONJ", "PUNC", "PPC", "PREP", "PostP"}
  }

  /** The VP, ADJP and ADVP labels are none of the earlier ones. */
  lemma PhraseLabelsAreLate(l: string)
    requires IsVerbLabel(l) || IsAdjLabel(l) || IsAdvLabel(l)
    ensures !IsEarlyLabel(l) && l != "NPA" && !IsNounLabel(l)
  {
  }

  /** Past the stop-leaf test, verb, adjective and adverb labels become a
      VP, an ADJP and an ADVP over the node. */
  lemma PhraseRelabels(t: Tree, parent: Option<string>)
    requires t.Node? && Label(t).Some? && !HasStop(t)
    ensures var l := Label(t).value;
            && (IsVerbLabel(l) ==> Classify(t, parent) == Some(Append(Node("VP", [t]))))
            && (IsAdjLabel(l) ==> Classify(t, parent) == Some(Append(Node("ADJP", [t]))))
            && (IsAdvLabel(l) ==> Classify(t, parent) == Some(Append(Node("ADVP", [t]))))
  {
    var l := Label(t).value;
    if IsVerbLabel(l) || IsAdjLabel(l) || IsAdvLabel(l) {
      PhraseLabelsAreLate(l);
      assert EarlyRule(t, l).None?;
      assert NounRule(t, l, parent) == Some(None);
    }
  }

  /** Past the stop-leaf test, the NP labels are collapsed into one NP. */
  lemma NounLabelsCollapse(t: Tree, parent: Option<string>)
    requires t.Node? && Label(t).Some? && IsNounLabel(Label(t).value) && !HasStop(t)
    ensures Classify(t, parent) == Some(Append(Collapse(t, "NP")))
  {
    var l := Label(t).value;
    NounLabelsAreLate(l);
    assert EarlyRule(t, l).None?;
  }

  /** The NP labels are none of the early ones, and not NPA. */
  lemma NounLabelsAreLate(l: string)
    requires IsNounLabel(l)
    ensures !IsEarlyLabel(l) && l != "NPA"
  {
  }

  /** A CONJ or PUNC node with a single child is appended as it is. */
  lemma LoneStopKept(t: Tree, parent: Option<string>)
    requires t.Node? && (Label(t) == Some("CONJ") || Label(t) == Some("PUNC")) && |t.kids| == 1
    ensures Classify(t, parent) == Some(Append(t))
  {
  }

  /** NPA is none of the labels that the other rules test. */
  lemma NpaIsLate()
    ensures !IsEarlyLabel("NPA") && !IsNounLabel("NPA")
    ensures !IsVerbLabel("NPA") && !IsAdjLabel("NPA") && !IsAdvLabel("NPA")
  {
  }

  /** Past the stop-leaf test, an NPA node at the root raises (its parent
      is `None`), and one under a CPC or PPC is collapsed into an NP. */
  lemma NpaByParent(t: Tree, parent: Option<string>)
    requires t.Node? && Label(t) == Some("NPA") && !HasStop(t)
    ensures parent.None? ==> Classify(t, parent).None?
    ensures parent.Some? && parent.value in {"CPC", "PPC"} ==>
              Classify(t, parent) == Some(Append(Collapse(t, "NP")))
  {
    NpaIsLate();
    assert EarlyRule(t, "NPA").None?;
  }

  /** Past the stop-leaf test, an NPA node under any other parent: it
      raises when it has no children or its first child is a leaf tuple,
      is collapsed into an NP when its first child is an ADV, and is
      descended into when that first child is its only child. */
  lemma NpaFirstChild(t: Tree, p: string)
    requires t.Node? && Label(t) == Some("NPA") && !HasStop(t) && p !in {"CPC", "PPC"}
    ensures t.kids == [] ==> Classify(t, Some(p)).None?
    ensures t.kids != [] && t.kids[0].Leaf? ==> Classify(t, Some(p)).None?
    ensures t.kids != [] && t.kids[0].Node? && t.kids[0].name == "ADV" ==>
              Classify(t, Some(p)) == Some(Append(Collapse(t, "NP")))
    ensures |t.kids| == 1 && t.kids[0].Node? && t.kids[0].name != "ADV" ==>
              Classify(t, Some(p)) == Some(Descend)
  {
    NpaIsLate();
    assert EarlyRule(t, "NPA").None?;
  }

  /** Past the stop-leaf test, an NPA node with at least two children,
      under a parent other than CPC or PPC and not starting with an ADV:
      it raises when its second child is a leaf tuple; otherwise it is
      collapsed into an NP exactly when its first two labels are one of
      the listed pairs, and descended into when they are not. */
  lemma NpaPairRule(t: Tree, p: string)
    requires t.Node? && Label(t) == Some("NPA") && !HasStop(t) && p !in {"CPC", "PPC"}
    requires |t.kids| >= 2 && t.kids[0].Node? && t.kids[0].name != "ADV"
    ensures t.kids[1].Leaf? ==> Classify(t, Some(p)).None?
    ensures t.kids[1].Node? && NpaPair(t.kids[0].name, t.kids[1].name) ==>
              Classify(t, Some(p)) == Some(Append(Collapse(t, "NP")))
    ensures t.kids[1].Node? && !NpaPair(t.kids[0].name, t.kids[1].name) ==>
              Classify(t, Some(p)) == Some(Descend)
  {
    NpaIsLate();
    assert EarlyRule(t, "NPA").None?;
  }

  /** A node with a leaf under PUNC, CONJ, PREP or PostP is never chunked
      whole by the later rules: either one of the four early rules takes
      it, or `traverse` descends into it. */
  lemma StopLeafDescends(t: Tree, parent: Option<string>)
    requires t.Node? && Label(t).Some? && HasStop(t)
    ensures || Classify(t, parent) == Some(Descend)
            || Classify(t, parent) == EarlyRule(t, Label(t).value)
  {
  }

  /** DPC and DPA nodes are NP labels, so they are collapsed into an NP
      (or descended into) before the DPC and DPA rules are reached: those
      rules never fire. */
  lemma DpcDpaAreNouns(t: Tree, parent: Option<string>)
    requires t.Node? && (Label(t) == Some("DPC") || Label(t) == Some("DPA"))
    ensures || Classify(t, parent) == Some(Descend)
            || Classify(t, parent) == Some(Append(Collapse(t, "NP")))
  {
  }

  // ---------------------------------------------------------------------
  // The shared chunk list
  // ---------------------------------------------------------------------

  /** The chunks of the children from the `i`-th on: those of child `i`,
      then those of the rest. */
  lemma KidsStep(kids: seq<Tree>, i: nat, parent: string)
    requires i < |kids|
    ensures ChunksOfKids(kids[i..], parent) ==
              match Chunks(kids[i], Some(parent))
              case None => None
              case Some(a) => Prepend(a, ChunksOfKids(kids[i + 1..], parent))
  {
    assert kids[i..][0] == kids[i] && kids[i..][1..] == kids[i + 1..];
  }

  lemma PrependTwice(acc: seq<Tree>, a: seq<Tree>, rest: Option<seq<Tree>>)
    ensures Prepend(acc, Prepend(a, rest)) == Prepend(acc + a, rest)
  {
    if rest.Some? {
      Associative(acc, a, rest.value);
    }
  }

  lemma PrependNothing(rest: Option<seq<Tree>>)
    ensures Prepend([], rest) == rest
  {
    if rest.Some? {
      assert [] + rest.value == rest.value;
    }
  }

  /** The chunks finished from the `i`-th on: chunk `i`, then the rest. */
  lemma FinishStep(cs: seq<Tree>, i: nat)
    requires i < |cs|
    ensures FinishAll(cs[i..]) ==
              match FinishChunk(cs[i])
              case None => None
              case Some(f) => Prepend([f], FinishAll(cs[i + 1..]))
  {
    assert cs[i..][0] == cs[i] && cs[i..][1..] == cs[i + 1..];
  }

  /** The `chunks` list that `traverse` appends to and the final loop
      rewrites. */
  class ChunkList {
    var chunks: seq<Tree>

    constructor()
      ensures chunks == []
    {
      chunks := [];
    }

    /** `traverse(node, parent, chunks)`: appends the chunks of `node`, in
        order; `false` when Python raises (what was appended before the
        exception is then left unspecified). */
    method Traverse(node: Tree, parent: Option<string>) returns (ok: bool)
      modifies this
      ensures ok <==> Chunks(node, parent).Some?
      ensures ok ==> chunks == old(chunks) + Chunks(node, parent).value
      decreases node, 1
    {
      if node.Leaf? {
        return false;
      }
      var step := Classify(node, parent);
      if step.None? {
        return false;
      }
      match step.value {
        case Append(c) =>
          chunks := chunks + [c];
          ok := true;
        case Descend =>
          ok := TraverseKids(node.kids, node.name);
      }
    }

    /** The loop `for i in range(len(node)): traverse(node[i], node, chunks)`
        over the children of a node labelled `parent`. */
    method TraverseKids(kids: seq<Tree>, parent: string) returns (ok: bool)
      modifies this
      ensures ok <==> ChunksOfKids(kids, parent).Some?
      ensures ok ==> chunks == old(chunks) + ChunksOfKids(kids, parent).value
      decreases kids, 0
    {
      ghost var start := chunks;
      ghost var acc: seq<Tree> := [];
      assert kids[0..] == kids;
      PrependNothing(ChunksOfKids(kids, parent));
      AppendEmpty(start);
      for i := 0 to |kids|
        invariant chunks == start + acc
        invariant ChunksOfKids(kids, parent) == Prepend(acc, ChunksOfKids(kids[i..], parent))
      {
        var kidOk := Traverse(kids[i], Some(parent));
        KidsStep(kids, i, parent);
        if !kidOk {
          return false;
        }
        ghost var a := Chunks(kids[i], Some(parent)).value;
        PrependTwice(acc, a, ChunksOfKids(kids[i + 1..], parent));
        Associative(start, acc, a);
        acc := acc + a;
      }
      assert kids[|kids|..] == [];
      AppendEmpty(acc);
      ok := true;
    }

    /** The final loop of `chunked_trees`: every chunk rewritten in place
        by `FinishChunk`; `false` when Python raises. */
    method Finish() returns (ok: bool)
      modifies this
      ensures ok <==> FinishAll(old(chunks)).Some?
      ensures ok ==> chunks == FinishAll(old(chunks)).value
    {
      ghost var orig := chunks;
      assert orig[0..] == orig && chunks[..0] == [];
      PrependNothing(FinishAll(orig));
      for i := 0 to |chunks|
        invariant |chunks| == |orig|
        invariant chunks[i..] == orig[i..]
        invariant FinishAll(orig) == Prepend(chunks[..i], FinishAll(orig[i..]))
      {
        FinishStep(orig, i);
        var c := chunks[i];
        assert c == orig[i];
        if c.Leaf? {
          return false;
        }
        var f;
        if c.name == "PUNC" || c.name == "CONJ" {
          if c.kids == [] {
            return false;
          }
          f := c.kids[0];
        } else {
          f := Node(c.name, Leaves(c));
        }
        PrependTwice(chunks[..i], [f], FinishAll(orig[i + 1..]));
        ghost var before := chunks;
        chunks := chunks[i := f];
        assert chunks[..i + 1] == before[..i] + [f];
        assert chunks[i + 1..] == before[i + 1..];
      }
      assert chunks[..|chunks|] == chunks;
      assert orig[|orig|..] == [];
      AppendEmpty(chunks);
      ok := true;
    }
  }

  /** One tree of `chunked_trees()`: a fresh list, `traverse` from the
      root (whose parent is `None`), the final loop, and `S` over the
      rewritten list. */
  method ChunkTree(t: Tree) returns (r: Option<Tree>)
    ensures r == ChunkedTree(t)
  {
    var list := new ChunkList();
    var ok := list.Traverse(t, None);
    if !ok {
      return None;
    }
    assert list.chunks == Chunks(t, None).value by {
      assert [] + Chunks(t, None).value == Chunks(t, None).value;
    }
    ok := list.Finish();
    if !ok {
      return None;
    }
    r := Some(Node("S", list.chunks));
  }
}
