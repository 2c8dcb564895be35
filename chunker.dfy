/** hazm/Chunker.py: the bracket renderer `tree2brackets` and the
    `Chunker.parse` / `Chunker.parse_sents` pair.

    `tree2brackets` reads the IOB view of a chunk tree (what nltk's
    `tree2conlltags` returns: one (word, POS tag, chunk tag) row per word)
    and writes text such as `[w1 w2 NP] [w3 POSTP] w4`. The renderer is
    modelled as a method with its loop; `Emit` is the specification it is
    proved against, at the level of the pieces it writes (an opening
    bracket, a word, a label with its closing bracket). `Group` is an
    independent reading of the IOB rows as a sequence of chunks and bare
    words, and the lemmas show that the rendered pieces are exactly those
    chunks in brackets. */
module Chunker {
  import opened Options
  import opened Strings
  import opened Seqs

  // ---------------------------------------------------------------------
  // The IOB rows
  // ---------------------------------------------------------------------

  /** One row of the IOB view: a word, its part-of-speech tag and its chunk
      tag (`B-X` begins a chunk labelled X, `I-X` continues one, `O` is
      outside every chunk). */
  datatype Item = Item(word: string, pos: string, iob: string)

  /** The renderer reads the first letter of every chunk tag and, of a tag
      starting with `B`, the field after its first '-'; Python raises on an
      empty tag or on a `B` tag without '-'. `tree2conlltags` never writes
      such tags. */
  predicate Renderable(it: Item)
  {
    it.iob != [] && (it.iob[0] == 'B' ==> '-' in it.iob)
  }

  /** The first letter of the chunk tag: 'B', 'I', 'O' (or anything else,
      which the renderer treats like 'I'); a space stands for the empty tag,
      on which the renderer raises. */
  function Kind(it: Item): char
  {
    if it.iob == [] then ' ' else it.iob[0]
  }

  /** A `B` or an `O` row ends whatever chunk is open. */
  predicate Closes(it: Item)
  {
    Kind(it) == 'B' || Kind(it) == 'O'
  }

  /** The label a `B` row opens: `iob.split("-")[1]` (empty for a tag
      without '-', on which the renderer raises). */
  function ChunkLabel(it: Item): (l: string)
    ensures '-' !in l
  {
    if '-' in it.iob then SecondField(it.iob, '-') else ""
  }

  /** Every `B` row carries a non-empty label; an empty one is falsy in
      Python and the renderer would never close its bracket. */
  predicate LabelsNonEmpty(items: seq<Item>)
  {
    items == [] || ((Kind(items[0]) == 'B' ==> ChunkLabel(items[0]) != "") && LabelsNonEmpty(items[1..]))
  }

  function WordsOf(items: seq<Item>): (ws: seq<string>)
    ensures |ws| == |items|
  {
    if items == [] then [] else [items[0].word] + WordsOf(items[1..])
  }

  // ---------------------------------------------------------------------
  // What the renderer writes
  // ---------------------------------------------------------------------

  /** A piece of rendered text: `[`, a word followed by a space, or a label
      followed by `] `. */
  datatype Piece = OpenBracket | Word(text: string) | CloseBracket(name: string)

  function SpellPiece(p: Piece): string
  {
    match p
    case OpenBracket => "["
    case Word(w) => w + " "
    case CloseBracket(l) => l + "] "
  }

  function Spell(ps: seq<Piece>): string
  {
    if ps == [] then "" else SpellPiece(ps[0]) + Spell(ps[1..])
  }

  lemma {:induction false} SpellAppend(a: seq<Piece>, b: seq<Piece>)
    ensures Spell(a + b) == Spell(a) + Spell(b)
  {
    if a == [] {
      assert a + b == b;
    } else {
      assert (a + b)[1..] == a[1..] + b;
      SpellAppend(a[1..], b);
    }
  }

  /** The pieces written for a row before its word, when `open` is the
      label currently open ("" when none). */
  function Before(it: Item, open: string): seq<Piece>
  {
    (if Closes(it) && open != "" then [CloseBracket(open)] else [])
    + (if Kind(it) == 'B' then [OpenBracket] else [])
  }

  /** The label open after a row. */
  function OpenAfter(it: Item, open: string): string
  {
    if Kind(it) == 'B' then ChunkLabel(it) else if Kind(it) == 'O' then "" else open
  }

  /** The pieces written at the end of the input. */
  function Final(open: string): seq<Piece>
  {
    if open != "" then [CloseBracket(open)] else []
  }

  /** The pieces the renderer writes for `items`, starting with `open` as
      the open label. */
  function Emit(items: seq<Item>, open: string): seq<Piece>
    decreases |items|
  {
    if items == [] then Final(open)
    else
      var it := items[0];
      Before(it, open) + [Word(it.word)] + Emit(items[1..], OpenAfter(it, open))
  }

  /** What `tree2brackets` returns for `items`: `None` when it raises. */
  function Brackets(items: seq<Item>): (r: Option<string>)
    ensures r.None? <==> exists i :: 0 <= i < |items| && !Renderable(items[i])
  {
    if forall i :: 0 <= i < |items| ==> Renderable(items[i]) then Some(Strip(Spell(Emit(items, ""))))
    else None
  }

  /** A tree without words is rendered as the empty string. */
  lemma BracketsEmpty()
    ensures Brackets([]) == Some("")
  {
    assert Emit([], "") == [];
    assert SpaceBetween(Spell([]), 0, 0);
  }

  lemma SpellSnoc(ps: seq<Piece>, p: Piece)
    ensures Spell(ps + [p]) == Spell(ps) + SpellPiece(p)
  {
    SpellAppend(ps, [p]);
    assert Spell([p]) == SpellPiece(p) + Spell([]);
  }

  /** The pieces for the rows from `i` on: those of row `i`, then the
      rest. */
  lemma EmitStep(items: seq<Item>, i: nat, open: string)
    requires i < |items|
    ensures Emit(items[i..], open)
         == Before(items[i], open) + [Word(items[i].word)] + Emit(items[i + 1..], OpenAfter(items[i], open))
  {
    assert items[i..][1..] == items[i + 1..];
  }

  /** The label open after a renderable row, in the terms the renderer
      tests. */
  function NextTag(it: Item, open: string): string
    requires Renderable(it)
  {
    if it.iob[0] == 'B' then SecondField(it.iob, '-')
    else if it.iob[0] == 'O' && open != "" then ""
    else open
  }

  /** The closing piece written before a renderable row's word, in the
      terms the renderer tests. */
  function Closing(it: Item, open: string): seq<Piece>
    requires Renderable(it)
  {
    if (it.iob[0] == 'B' || it.iob[0] == 'O') && open != "" then [CloseBracket(open)] else []
  }

  /** The opening piece written before a renderable row's word. */
  function Opening(it: Item): seq<Piece>
    requires Renderable(it)
  {
    if it.iob[0] == 'B' then [OpenBracket] else []
  }

  /** One row of the loop: what has been written so far, then this row's
      pieces and word, then the rest, is the whole rendering. */
  lemma RowStep(items: seq<Item>, i: nat, open: string, ps: seq<Piece>)
    requires i < |items| && Renderable(items[i])
    requires ps + Emit(items[i..], open) == Emit(items, "")
    ensures ps + Closing(items[i], open) + Opening(items[i]) + [Word(items[i].word)]
            + Emit(items[i + 1..], NextTag(items[i], open))
         == Emit(items, "")
  {
    var it := items[i];
    var w := [Word(it.word)];
    var c, o := Closing(it, open), Opening(it);
    var rest := Emit(items[i + 1..], OpenAfter(it, open));
    EmitStep(items, i, open);
    assert Before(it, open) == c + o && NextTag(it, open) == OpenAfter(it, open);
    calc {
      ps + c + o + w + rest;
    == { Associative(ps, c, o); }
      ps + (c + o) + w + rest;
    == { Associative(ps, c + o, w); }
      ps + (c + o + w) + rest;
    == { Associative(ps, c + o + w, rest); }
      ps + (c + o + w + rest);
    }
  }

  /** The body of the renderer's loop for one renderable row: close the
      open chunk on a `B` or `O`, open a bracket on a `B`, write the word. */
  method WriteRow(item: Item, out: string, tag: string, ghost ps: seq<Piece>)
      returns (out': string, tag': string, ghost ps': seq<Piece>)
    requires Renderable(item) && out == Spell(ps)
    ensures ps' == ps + Closing(item, tag) + Opening(item) + [Word(item.word)]
    ensures out' == Spell(ps') && tag' == NextTag(item, tag)
  {
    out', tag', ps' := out, tag, ps;
    if (item.iob[0] == 'B' || item.iob[0] == 'O') && tag' != "" {
      SpellSnoc(ps', CloseBracket(tag'));
      out' := out' + (tag' + "] ");
      ps' := ps' + [CloseBracket(tag')];
      tag' := "";
    } else {
      AppendEmpty(ps');
    }
    if item.iob[0] == 'B' {
      SpellSnoc(ps', OpenBracket);
      tag' := SecondField(item.iob, '-');
      out' := out' + "[";
      ps' := ps' + [OpenBracket];
    } else {
      AppendEmpty(ps');
    }
    SpellSnoc(ps', Word(item.word));
    out' := out' + (item.word + " ");
    ps' := ps' + [Word(item.word)];
  }

  /** `tree2brackets` (hazm/Chunker.py:42-56), over the rows that
      `tree2conlltags(tree)` yields. */
  method Tree2Brackets(items: seq<Item>) returns (r: Option<string>)
    ensures r == Brackets(items)
  {
    var out, tag := "", "";
    ghost var ps: seq<Piece> := [];
    for i := 0 to |items|
      invariant forall j :: 0 <= j < i ==> Renderable(items[j])
      invariant out == Spell(ps)
      invariant ps + Emit(items[i..], tag) == Emit(items, "")
    {
      var item := items[i];
      if item.iob == [] || (item.iob[0] == 'B' && '-' !in item.iob) {
        return None;
      }
      RowStep(items, i, tag, ps);
      out, tag, ps := WriteRow(item, out, tag, ps);
    }
    assert items[|items|..] == [];
    if tag != "" {
      SpellSnoc(ps, CloseBracket(tag));
      out := out + (tag + "] ");
      ps := ps + [CloseBracket(tag)];
    } else {
      AppendEmpty(ps);
    }
    r := Some(Strip(out));
  }

  // ---------------------------------------------------------------------
  // Words: every row's word, once, in order
  // ---------------------------------------------------------------------

  /** The words among the pieces, in order. */
  function Words(ps: seq<Piece>): seq<string>
  {
    if ps == [] then []
    else (if ps[0].Word? then [ps[0].text] else []) + Words(ps[1..])
  }

  lemma {:induction false} WordsAppend(a: seq<Piece>, b: seq<Piece>)
    ensures Words(a + b) == Words(a) + Words(b)
  {
    if a == [] {
      assert a + b == b;
    } else {
      assert (a + b)[1..] == a[1..] + b;
      WordsAppend(a[1..], b);
    }
  }

  lemma WordsBefore(it: Item, open: string)
    ensures Words(Before(it, open)) == []
  {
    var c := if Closes(it) && open != "" then [CloseBracket(open)] else [];
    var o := if Kind(it) == 'B' then [OpenBracket] else [];
    WordsAppend(c, o);
  }

  /** Each row's word is written exactly once, in the order of the rows. */
  lemma {:induction false} EmitKeepsWords(items: seq<Item>, open: string)
    ensures Words(Emit(items, open)) == WordsOf(items)
    decreases |items|
  {
    if items == [] {
      assert Words(Final(open)) == [];
    } else {
      var it := items[0];
      var pre := Before(it, open) + [Word(it.word)];
      var rest := Emit(items[1..], OpenAfter(it, open));
      calc {
        Words(Emit(items, open));
      == { WordsAppend(pre, rest); }
        Words(pre) + Words(rest);
      == { WordsAppend(Before(it, open), [Word(it.word)]); WordsBefore(it, open); }
        [it.word] + Words(rest);
      == { EmitKeepsWords(items[1..], OpenAfter(it, open)); }
        [it.word] + WordsOf(items[1..]);
      }
    }
  }

  // ---------------------------------------------------------------------
  // Opening brackets: right before the word of each B row, and only there
  // ---------------------------------------------------------------------

  /** For each word among the pieces, whether `[` comes right before it;
      `afterOpen` says whether the piece before `ps` was `[`. */
  function OpenedFlags(ps: seq<Piece>, afterOpen: bool): seq<bool>
  {
    if ps == [] then []
    else match ps[0]
      case Word(_) => [afterOpen] + OpenedFlags(ps[1..], false)
      case OpenBracket => OpenedFlags(ps[1..], true)
      case CloseBracket(_) => OpenedFlags(ps[1..], false)
  }

  function BeginFlags(items: seq<Item>): (fs: seq<bool>)
    ensures |fs| == |items|
    ensures forall i :: 0 <= i < |items| ==> (fs[i] <==> Kind(items[i]) == 'B')
  {
    if items == [] then [] else [Kind(items[0]) == 'B'] + BeginFlags(items[1..])
  }

  /** The pieces before a row's word leave the flag "`[` just written" set
      exactly for a `B` row. */
  lemma FlagsAfterBefore(it: Item, open: string, w: seq<Piece>)
    ensures OpenedFlags(Before(it, open) + w, false) == OpenedFlags(w, Kind(it) == 'B')
  {
    var c := if Closes(it) && open != "" then [CloseBracket(open)] else [];
    var o := if Kind(it) == 'B' then [OpenBracket] else [];
    Associative(c, o, w);
    var ow := o + w;
    if o != [] {
      assert ow[0] == OpenBracket && ow[1..] == w;
      assert OpenedFlags(ow, false) == OpenedFlags(w, true);
    } else {
      assert ow == w;
    }
    if c != [] {
      assert (c + ow)[0] == CloseBracket(open) && (c + ow)[1..] == ow;
    } else {
      assert c + ow == ow;
    }
  }

  /** A `[` is written right before a word exactly when that word's row is
      a `B` row; `I` and `O` rows never open a bracket. */
  lemma {:induction false} EmitOpensExactlyAtB(items: seq<Item>, open: string)
    ensures OpenedFlags(Emit(items, open), false) == BeginFlags(items)
    decreases |items|
  {
    if items == [] {
      assert OpenedFlags(Final(open), false) == [];
    } else {
      var it := items[0];
      var rest := Emit(items[1..], OpenAfter(it, open));
      EmitOpensExactlyAtB(items[1..], OpenAfter(it, open));
      var w := [Word(it.word)] + rest;
      Associative(Before(it, open), [Word(it.word)], rest);
      FlagsAfterBefore(it, open, w);
      assert w[1..] == rest;
    }
  }

  // ---------------------------------------------------------------------
  // Closing brackets: brackets never nest and every one is closed
  // ---------------------------------------------------------------------

  /** Reading `ps` with a bracket open (`inside`) or not: `None` when a `[`
      comes while one is open or a `]` while none is, otherwise whether a
      bracket is open at the end. */
  function Track(ps: seq<Piece>, inside: bool): Option<bool>
  {
    if ps == [] then Some(inside)
    else match ps[0]
      case OpenBracket => if inside then None else Track(ps[1..], true)
      case CloseBracket(_) => if inside then Track(ps[1..], false) else None
      case Word(_) => Track(ps[1..], inside)
  }

  /** Brackets open and close alternately and none is left open. */
  predicate Balanced(ps: seq<Piece>)
  {
    Track(ps, false) == Some(false)
  }

  lemma {:induction false} TrackAppend(a: seq<Piece>, b: seq<Piece>, inside: bool)
    ensures Track(a + b, inside) == match Track(a, inside)
                                    case None => None
                                    case Some(g) => Track(b, g)
  {
    if a == [] {
      assert a + b == b;
    } else {
      assert (a + b)[1..] == a[1..] + b;
      match a[0]
      case OpenBracket => if !inside { TrackAppend(a[1..], b, true); }
      case CloseBracket(_) => if inside { TrackAppend(a[1..], b, false); }
      case Word(_) => TrackAppend(a[1..], b, inside);
    }
  }

  /** One row moves the bracket state legally, from "a label is open" to
      "a label is open after it". */
  lemma TrackBefore(it: Item, open: string)
    requires Kind(it) == 'B' ==> ChunkLabel(it) != ""
    ensures Track(Before(it, open) + [Word(it.word)], open != "") == Some(OpenAfter(it, open) != "")
  {
    var w := [Word(it.word)];
    assert w[1..] == [];
    assert forall b :: Track(w, b) == Track(w[1..], b) == Some(b);
    var ps := Before(it, open) + w;
    if Closes(it) && open != "" {
      if Kind(it) == 'B' {
        assert ps == [CloseBracket(open), OpenBracket] + w;
        assert ps[1..] == [OpenBracket] + w;
        assert ps[1..][1..] == w;
      } else {
        assert Kind(it) == 'O' && OpenAfter(it, open) == "";
        assert ps == [CloseBracket(open)] + w;
        assert ps[1..] == w;
      }
    } else if Kind(it) == 'B' {
      assert ps == [OpenBracket] + w;
      assert ps[1..] == w;
    } else {
      assert ps == w;
    }
  }

  /** With every label non-empty, the pieces written from any open label
      on never nest a bracket and leave none open; in particular the
      rendering of a whole input is balanced. */
  lemma {:induction false} EmitBalanced(items: seq<Item>, open: string)
    requires LabelsNonEmpty(items)
    ensures Track(Emit(items, open), open != "") == Some(false)
    decreases |items|
  {
    if items != [] {
      var it := items[0];
      var next := OpenAfter(it, open);
      EmitBalanced(items[1..], next);
      var pre := Before(it, open) + [Word(it.word)];
      TrackAppend(pre, Emit(items[1..], next), open != "");
      TrackBefore(it, open);
    }
  }

  function CountOpen(ps: seq<Piece>): nat
  {
    if ps == [] then 0 else (if ps[0].OpenBracket? then 1 else 0) + CountOpen(ps[1..])
  }

  function CountClose(ps: seq<Piece>): nat
  {
    if ps == [] then 0 else (if ps[0].CloseBracket? then 1 else 0) + CountClose(ps[1..])
  }

  /** In balanced pieces there are as many `[` as `]`. */
  lemma {:induction false} BalancedCounts(ps: seq<Piece>, inside: bool, after: bool)
    requires Track(ps, inside) == Some(after)
    ensures CountOpen(ps) + (if inside then 1 else 0) == CountClose(ps) + (if after then 1 else 0)
  {
    if ps != [] {
      match ps[0]
      case OpenBracket => BalancedCounts(ps[1..], true, after);
      case CloseBracket(_) => BalancedCounts(ps[1..], false, after);
      case Word(_) => BalancedCounts(ps[1..], inside, after);
    }
  }

  // ---------------------------------------------------------------------
  // The chunks the rows denote
  // ---------------------------------------------------------------------

  /** A chunk with its label and words, or a word outside every chunk. */
  datatype Segment = Chunk(name: string, words: seq<string>) | Bare(word: string)

  /** The words of the rows at the start of `items` that neither begin nor
      end a chunk (the `I` rows, whatever label they carry). */
  function RunWords(items: seq<Item>): seq<string>
  {
    if items == [] || Closes(items[0]) then [] else [items[0].word] + RunWords(items[1..])
  }

  /** The rows after those: empty, or starting with a `B` or `O` row. */
  function AfterRun(items: seq<Item>): (rest: seq<Item>)
    ensures |rest| <= |items|
    ensures rest == [] || Closes(rest[0])
  {
    if items == [] || Closes(items[0]) then items else AfterRun(items[1..])
  }

  /** The chunks and bare words that the IOB rows denote when read as the
      renderer reads them: a `B-X` row starts a chunk labelled X that takes
      in every following `I` row, whatever its label, up to the next `B` or
      `O` row; an `O` row, and an `I` row with no chunk before it, is a bare
      word. */
  function Group(items: seq<Item>): seq<Segment>
    decreases |items|
  {
    if items == [] then []
    else if Kind(items[0]) == 'B' then
      [Chunk(ChunkLabel(items[0]), [items[0].word] + RunWords(items[1..]))] + Group(AfterRun(items[1..]))
    else [Bare(items[0].word)] + Group(items[1..])
  }

  function WordPieces(ws: seq<string>): (ps: seq<Piece>)
    ensures |ps| == |ws|
  {
    if ws == [] then [] else [Word(ws[0])] + WordPieces(ws[1..])
  }

  lemma WordPiecesCons(w: string, ws: seq<string>)
    ensures WordPieces([w] + ws) == [Word(w)] + WordPieces(ws)
  {
    assert ([w] + ws)[1..] == ws;
  }

  /** Bracketed text for a chunk: `[w1 .. wn X]`; a bare word as it is. */
  function RenderSegment(seg: Segment): seq<Piece>
  {
    match seg
    case Chunk(l, ws) => [OpenBracket] + WordPieces(ws) + [CloseBracket(l)]
    case Bare(w) => [Word(w)]
  }

  function Render(segs: seq<Segment>): seq<Piece>
  {
    if segs == [] then [] else RenderSegment(segs[0]) + Render(segs[1..])
  }

  lemma RenderCons(seg: Segment, segs: seq<Segment>)
    ensures Render([seg] + segs) == RenderSegment(seg) + Render(segs)
  {
    assert ([seg] + segs)[1..] == segs;
  }

  /** From an open label, the renderer writes the words of the `I` rows
      that follow, then closes that label, then goes on as if nothing were
      open. */
  lemma {:induction false} EmitThroughRun(items: seq<Item>, open: string)
    requires open != ""
    ensures Emit(items, open) == WordPieces(RunWords(items)) + [CloseBracket(open)] + Emit(AfterRun(items), "")
    decreases |items|, 1
  {
    if items == [] || Closes(items[0]) {
      EmitClosesOpen(items, open);
    } else {
      EmitContinuesRun(items, open);
    }
  }

  /** A `B` or `O` row, or the end of the rows, first closes the open
      label. */
  lemma EmitClosesOpen(items: seq<Item>, open: string)
    requires open != "" && (items == [] || Closes(items[0]))
    ensures Emit(items, open) == WordPieces(RunWords(items)) + [CloseBracket(open)] + Emit(AfterRun(items), "")
  {
    assert RunWords(items) == [] && AfterRun(items) == items;
    assert WordPieces([]) == [];
    if items == [] {
      assert Emit(items, open) == [CloseBracket(open)];
    } else {
      var it := items[0];
      var rest := Emit(items[1..], OpenAfter(it, open));
      calc {
        Emit(items, open);
        Before(it, open) + [Word(it.word)] + rest;
      == { BeforeClosing(it, open); }
        [CloseBracket(open)] + Before(it, "") + [Word(it.word)] + rest;
      == { Associative([CloseBracket(open)], Before(it, ""), [Word(it.word)]);
           Associative([CloseBracket(open)], Before(it, "") + [Word(it.word)], rest); }
        [CloseBracket(open)] + (Before(it, "") + [Word(it.word)] + rest);
      }
    }
  }

  /** Before the word of a `B` or `O` row, the open label is closed. */
  lemma BeforeClosing(it: Item, open: string)
    requires Closes(it) && open != ""
    ensures Before(it, open) == [CloseBracket(open)] + Before(it, "")
    ensures OpenAfter(it, open) == OpenAfter(it, "")
  {
  }

  lemma {:induction false} EmitContinuesRun(items: seq<Item>, open: string)
    requires open != "" && items != [] && !Closes(items[0])
    ensures Emit(items, open) == WordPieces(RunWords(items)) + [CloseBracket(open)] + Emit(AfterRun(items), "")
    decreases |items|, 0
  {
    var it := items[0];
    var ws := WordPieces(RunWords(items[1..]));
    var w := [Word(it.word)];
    var close := [CloseBracket(open)];
    var later := Emit(AfterRun(items[1..]), "");
    calc {
      Emit(items, open);
    == { assert Before(it, open) == [] && OpenAfter(it, open) == open; }
      w + Emit(items[1..], open);
    == { EmitThroughRun(items[1..], open); }
      w + (ws + close + later);
    == { Associative(w, ws + close, later); Associative(w, ws, close); }
      w + ws + close + later;
    == { WordPiecesCons(it.word, RunWords(items[1..])); }
      WordPieces(RunWords(items)) + close + Emit(AfterRun(items), "");
    }
  }

  /** A `B` row with a non-empty label is written as its whole chunk in
      brackets, after which nothing is open. */
  lemma EmitChunk(items: seq<Item>)
    requires items != [] && Kind(items[0]) == 'B' && ChunkLabel(items[0]) != ""
    ensures Emit(items, "")
         == RenderSegment(Chunk(ChunkLabel(items[0]), [items[0].word] + RunWords(items[1..])))
            + Emit(AfterRun(items[1..]), "")
  {
    var it := items[0];
    var l := ChunkLabel(it);
    var ws := WordPieces(RunWords(items[1..]));
    var later := Emit(AfterRun(items[1..]), "");
    var w := [Word(it.word)];
    calc {
      Emit(items, "");
    == { assert Before(it, "") == [OpenBracket] && OpenAfter(it, "") == l; }
      [OpenBracket] + w + Emit(items[1..], l);
    == { EmitThroughRun(items[1..], l); }
      [OpenBracket] + w + (ws + [CloseBracket(l)] + later);
    == { Associative([OpenBracket] + w, ws + [CloseBracket(l)], later);
         Associative([OpenBracket] + w, ws, [CloseBracket(l)]); }
      [OpenBracket] + w + ws + [CloseBracket(l)] + later;
    == { Associative([OpenBracket], w, ws); WordPiecesCons(it.word, RunWords(items[1..])); }
      RenderSegment(Chunk(l, [it.word] + RunWords(items[1..]))) + later;
    }
  }

  lemma {:induction false} LabelsNonEmptyAfterRun(items: seq<Item>)
    requires LabelsNonEmpty(items)
    ensures LabelsNonEmpty(AfterRun(items))
  {
    if items != [] && !Closes(items[0]) {
      LabelsNonEmptyAfterRun(items[1..]);
    }
  }

  /** With every label non-empty, the rendered pieces are exactly the
      chunks of `Group` in brackets and its bare words. */
  lemma {:induction false} EmitRendersGroups(items: seq<Item>)
    requires LabelsNonEmpty(items)
    ensures Emit(items, "") == Render(Group(items))
    decreases |items|, 1
  {
    if items != [] {
      if Kind(items[0]) == 'B' {
        EmitRendersChunkFirst(items);
      } else {
        EmitRendersBareFirst(items);
      }
    }
  }

  lemma {:induction false} EmitRendersChunkFirst(items: seq<Item>)
    requires LabelsNonEmpty(items) && items != [] && Kind(items[0]) == 'B'
    ensures Emit(items, "") == Render(Group(items))
    decreases |items|, 0
  {
    var it := items[0];
    var c := Chunk(ChunkLabel(it), [it.word] + RunWords(items[1..]));
    var later := AfterRun(items[1..]);
    calc {
      Emit(items, "");
    == { EmitChunk(items); }
      RenderSegment(c) + Emit(later, "");
    == { LabelsNonEmptyAfterRun(items[1..]); EmitRendersGroups(later); }
      RenderSegment(c) + Render(Group(later));
    == { RenderCons(c, Group(later)); }
      Render([c] + Group(later));
    }
  }

  lemma {:induction false} EmitRendersBareFirst(items: seq<Item>)
    requires LabelsNonEmpty(items) && items != [] && Kind(items[0]) != 'B'
    ensures Emit(items, "") == Render(Group(items))
    decreases |items|, 0
  {
    var it := items[0];
    calc {
      Emit(items, "");
    == { assert Before(it, "") == [] && OpenAfter(it, "") == ""; }
      [Word(it.word)] + Emit(items[1..], "");
    == { EmitRendersGroups(items[1..]); }
      RenderSegment(Bare(it.word)) + Render(Group(items[1..]));
    == { RenderCons(Bare(it.word), Group(items[1..])); }
      Render([Bare(it.word)] + Group(items[1..]));
    }
  }

  /** What `tree2brackets` returns, read through `Group`: every chunk in
      brackets with its label, every bare word on its own, then stripped. */
  lemma BracketsRendersGroups(items: seq<Item>)
    requires forall i :: 0 <= i < |items| ==> Renderable(items[i])
    requires LabelsNonEmpty(items)
    ensures Brackets(items) == Some(Strip(Spell(Render(Group(items)))))
  {
    EmitRendersGroups(items);
  }

  /** The label of a `B-X` row is X. */
  lemma BeginLabel(it: Item, l: string)
    requires it.iob == "B-" + l && '-' !in l
    ensures Kind(it) == 'B' && ChunkLabel(it) == l
  {
    assert it.iob == "B" + ['-'] + l + "";
    SecondFieldOf("B", l, "", '-');
  }

  lemma GroupBareStep(it: Item, rest: seq<Item>)
    requires Kind(it) != 'B'
    ensures Group([it] + rest) == [Bare(it.word)] + Group(rest)
  {
    ConsParts(it, rest);
  }

  lemma GroupChunkStep(it: Item, rest: seq<Item>)
    requires Kind(it) == 'B'
    ensures Group([it] + rest) == [Chunk(ChunkLabel(it), [it.word] + RunWords(rest))] + Group(AfterRun(rest))
  {
    ConsParts(it, rest);
  }

  lemma RunContinues(it: Item, rest: seq<Item>)
    requires !Closes(it)
    ensures RunWords([it] + rest) == [it.word] + RunWords(rest)
    ensures AfterRun([it] + rest) == AfterRun(rest)
  {
    ConsParts(it, rest);
  }

  lemma RunEnds(rest: seq<Item>)
    requires rest == [] || Closes(rest[0])
    ensures RunWords(rest) == [] && AfterRun(rest) == rest
  {
  }

  /** The last four rows of the docstring example: B-POSTP B-VP I-VP O,
      with the labels left abstract. */
  lemma DocExampleTail(w: seq<string>, pos: seq<string>, postp: string, vp: string)
    requires |w| == 6 && |pos| == 6 && '-' !in postp && '-' !in vp
    ensures Group([Item(w[2], pos[2], "B-" + postp)] + ([Item(w[3], pos[3], "B-" + vp)]
                  + ([Item(w[4], pos[4], "I-" + vp)] + [Item(w[5], pos[5], "O")])))
            == [Chunk(postp, [w[2]])] + ([Chunk(vp, [w[3], w[4]])] + [Bare(w[5])])
  {
    var i2, i3 := Item(w[2], pos[2], "B-" + postp), Item(w[3], pos[3], "B-" + vp);
    var i4, i5 := Item(w[4], pos[4], "I-" + vp), Item(w[5], pos[5], "O");
    BeginLabel(i2, postp);
    BeginLabel(i3, vp);
    assert Kind(i4) == 'I' && Kind(i5) == 'O';
    var s5 := [i5];
    var s4 := [i4] + s5;
    var s3 := [i3] + s4;
    var bare := Bare(w[5]);
    GroupBareStep(i5, []);
    AppendEmpty([bare]);
    ConsParts(i5, []);
    RunEnds(s5);
    RunContinues(i4, s5);
    AppendEmpty([w[4]]);
    JoinTwoSingletons(w[3], w[4]);
    GroupChunkStep(i3, s4);
    ConsParts(i3, s4);
    RunEnds(s3);
    AppendEmpty([w[2]]);
    GroupChunkStep(i2, s3);
  }

  /** The docstring example, with its six words, their POS tags and the
      three chunk labels (NP, POSTP, VP) left abstract: the tags
      B-NP I-NP B-POSTP B-VP I-VP O group into
      `[w1 w2 NP] [w3 POSTP] [w4 w5 VP] w6`. */
  lemma DocExampleGroups(w: seq<string>, pos: seq<string>, np: string, postp: string, vp: string)
    requires |w| == 6 && |pos| == 6 && '-' !in np && '-' !in postp && '-' !in vp
    ensures Group([Item(w[0], pos[0], "B-" + np), Item(w[1], pos[1], "I-" + np),
                   Item(w[2], pos[2], "B-" + postp), Item(w[3], pos[3], "B-" + vp),
                   Item(w[4], pos[4], "I-" + vp), Item(w[5], pos[5], "O")])
            == [Chunk(np, [w[0], w[1]]), Chunk(postp, [w[2]]), Chunk(vp, [w[3], w[4]]), Bare(w[5])]
  {
    var i0, i1, i2 := Item(w[0], pos[0], "B-" + np), Item(w[1], pos[1], "I-" + np), Item(w[2], pos[2], "B-" + postp);
    var i3, i4, i5 := Item(w[3], pos[3], "B-" + vp), Item(w[4], pos[4], "I-" + vp), Item(w[5], pos[5], "O");
    BeginLabel(i0, np);
    assert Kind(i1) == 'I' && Kind(i2) == 'B';
    var s2 := [i2] + ([i3] + ([i4] + [i5]));
    var s1 := [i1] + s2;
    DocExampleTail(w, pos, postp, vp);
    ConsParts(i2, [i3] + ([i4] + [i5]));
    RunEnds(s2);
    RunContinues(i1, s2);
    AppendEmpty([w[1]]);
    JoinTwoSingletons(w[0], w[1]);
    GroupChunkStep(i0, s1);
    JoinFourSingletons(Chunk(np, [w[0], w[1]]), Chunk(postp, [w[2]]), Chunk(vp, [w[3], w[4]]), Bare(w[5]));
    JoinSixSingletons(i0, i1, i2, i3, i4, i5);
  }

  /** The text of two words, each followed by a space. */
  lemma SpellTwoWords(a: string, b: string)
    ensures Spell(WordPieces([a, b])) == a + " " + b + " "
  {
    assert [a, b][1..] == [b] && [b][1..] == [];
    assert Spell(WordPieces([])) == "";
    AppendEmpty(b + " ");
  }

  /** The text of one word followed by a space. */
  lemma SpellOneWord(a: string)
    ensures Spell(WordPieces([a])) == a + " "
    ensures Spell(RenderSegment(Bare(a))) == a + " "
  {
    assert [a][1..] == [];
    assert Spell(WordPieces([])) == "";
    AppendEmpty(a + " ");
  }

  /** A chunk is spelled `[`, its words, then its label and `] `. */
  lemma SpellChunk(l: string, ws: seq<string>)
    ensures Spell(RenderSegment(Chunk(l, ws))) == "[" + Spell(WordPieces(ws)) + (l + "] ")
  {
    var o, m, c := [OpenBracket], WordPieces(ws), [CloseBracket(l)];
    SpellAppend(o + m, c);
    SpellAppend(o, m);
    SpellSnoc([], OpenBracket);
    SpellSnoc([], CloseBracket(l));
    assert [] + o == o && [] + c == c;
  }

  /** The text of segments is the text of the first, then that of the rest. */
  lemma SpellRenderCons(seg: Segment, segs: seq<Segment>)
    ensures Spell(Render([seg] + segs)) == Spell(RenderSegment(seg)) + Spell(Render(segs))
  {
    RenderCons(seg, segs);
    SpellAppend(RenderSegment(seg), Render(segs));
  }

  /** A row that opens no empty label, before rows that open none. */
  lemma LabelsNonEmptyCons(it: Item, rest: seq<Item>)
    requires (Kind(it) == 'B' ==> ChunkLabel(it) != "") && LabelsNonEmpty(rest)
    ensures LabelsNonEmpty([it] + rest)
  {
    ConsParts(it, rest);
  }

  /** Every row of the docstring example is renderable. */
  lemma DocExampleRenderable(w: seq<string>, pos: seq<string>, np: string, postp: string, vp: string)
    requires |w| == 6 && |pos| == 6
    ensures var rows := [Item(w[0], pos[0], "B-" + np), Item(w[1], pos[1], "I-" + np),
                         Item(w[2], pos[2], "B-" + postp), Item(w[3], pos[3], "B-" + vp),
                         Item(w[4], pos[4], "I-" + vp), Item(w[5], pos[5], "O")];
            forall i :: 0 <= i < |rows| ==> Renderable(rows[i])
  {
    assert ("B-" + np)[1] == '-' && ("B-" + postp)[1] == '-' && ("B-" + vp)[1] == '-';
  }

  /** Every `B` row of the docstring example opens a non-empty label. */
  lemma DocExampleLabels(w: seq<string>, pos: seq<string>, np: string, postp: string, vp: string)
    requires |w| == 6 && |pos| == 6
    requires '-' !in np && '-' !in postp && '-' !in vp && np != "" && postp != "" && vp != ""
    ensures LabelsNonEmpty([Item(w[0], pos[0], "B-" + np), Item(w[1], pos[1], "I-" + np),
                            Item(w[2], pos[2], "B-" + postp), Item(w[3], pos[3], "B-" + vp),
                            Item(w[4], pos[4], "I-" + vp), Item(w[5], pos[5], "O")])
  {
    var i0, i1, i2 := Item(w[0], pos[0], "B-" + np), Item(w[1], pos[1], "I-" + np), Item(w[2], pos[2], "B-" + postp);
    var i3, i4, i5 := Item(w[3], pos[3], "B-" + vp), Item(w[4], pos[4], "I-" + vp), Item(w[5], pos[5], "O");
    BeginLabel(i0, np);
    BeginLabel(i2, postp);
    BeginLabel(i3, vp);
    assert Kind(i1) == 'I' && Kind(i4) == 'I' && Kind(i5) == 'O';
    assert LabelsNonEmpty([]);
    LabelsNonEmptyCons(i5, []);
    AppendEmpty([i5]);
    LabelsNonEmptyCons(i4, [i5]);
    LabelsNonEmptyCons(i3, [i4] + [i5]);
    LabelsNonEmptyCons(i2, [i3] + ([i4] + [i5]));
    LabelsNonEmptyCons(i1, [i2] + ([i3] + ([i4] + [i5])));
    LabelsNonEmptyCons(i0, [i1] + ([i2] + ([i3] + ([i4] + [i5]))));
    JoinSixSingletons(i0, i1, i2, i3, i4, i5);
  }

  /** The text of a two-word chunk, written out. */
  lemma SpellTwoWordChunk(l: string, a: string, b: string)
    ensures Spell(RenderSegment(Chunk(l, [a, b]))) == "[" + a + " " + b + " " + l + "] "
  {
    SpellChunk(l, [a, b]);
    SpellTwoWords(a, b);
  }

  /** The text of a one-word chunk, written out. */
  lemma SpellOneWordChunk(l: string, a: string)
    ensures Spell(RenderSegment(Chunk(l, [a]))) == "[" + a + " " + l + "] "
  {
    SpellChunk(l, [a]);
    SpellOneWord(a);
  }

  /** The text of the four segments of the docstring example. */
  lemma DocExampleSpelling(w: seq<string>, np: string, postp: string, vp: string)
    requires |w| == 6
    ensures Spell(Render([Chunk(np, [w[0], w[1]]), Chunk(postp, [w[2]]), Chunk(vp, [w[3], w[4]]), Bare(w[5])]))
         == ("[" + w[0] + " " + w[1] + " " + np + "] ")
            + (("[" + w[2] + " " + postp + "] ") + (("[" + w[3] + " " + w[4] + " " + vp + "] ") + (w[5] + " ")))
  {
    var c0, c1 := Chunk(np, [w[0], w[1]]), Chunk(postp, [w[2]]);
    var c2, c3 := Chunk(vp, [w[3], w[4]]), Bare(w[5]);
    JoinFourSingletons(c0, c1, c2, c3);
    SpellTwoWordChunk(np, w[0], w[1]);
    SpellOneWordChunk(postp, w[2]);
    SpellTwoWordChunk(vp, w[3], w[4]);
    SpellOneWord(w[5]);
    SpellRenderCons(c3, []);
    AppendEmpty([c3]);
    assert Spell(Render([])) == "";
    AppendEmpty(w[5] + " ");
    SpellRenderCons(c2, [c3]);
    SpellRenderCons(c1, [c2] + [c3]);
    SpellRenderCons(c0, [c1] + ([c2] + [c3]));
  }

  /** The rows of the docstring example render as its four segments. */
  lemma DocExampleRendersSegments(w: seq<string>, pos: seq<string>, np: string, postp: string, vp: string)
    requires |w| == 6 && |pos| == 6
    requires '-' !in np && '-' !in postp && '-' !in vp && np != "" && postp != "" && vp != ""
    ensures Brackets([Item(w[0], pos[0], "B-" + np), Item(w[1], pos[1], "I-" + np),
                      Item(w[2], pos[2], "B-" + postp), Item(w[3], pos[3], "B-" + vp),
                      Item(w[4], pos[4], "I-" + vp), Item(w[5], pos[5], "O")])
            == Some(Strip(Spell(Render([Chunk(np, [w[0], w[1]]), Chunk(postp, [w[2]]),
                                        Chunk(vp, [w[3], w[4]]), Bare(w[5])]))))
  {
    var rows := [Item(w[0], pos[0], "B-" + np), Item(w[1], pos[1], "I-" + np),
                 Item(w[2], pos[2], "B-" + postp), Item(w[3], pos[3], "B-" + vp),
                 Item(w[4], pos[4], "I-" + vp), Item(w[5], pos[5], "O")];
    DocExampleRenderable(w, pos, np, postp, vp);
    DocExampleLabels(w, pos, np, postp, vp);
    BracketsRendersGroups(rows);
    DocExampleGroups(w, pos, np, postp, vp);
  }

  /** The text of the docstring example's four segments, stripped. */
  lemma DocExampleStripped(w: seq<string>, np: string, postp: string, vp: string)
    requires |w| == 6 && w[5] != "" && !IsSpace(w[5][|w[5]| - 1])
    ensures Strip(Spell(Render([Chunk(np, [w[0], w[1]]), Chunk(postp, [w[2]]),
                                Chunk(vp, [w[3], w[4]]), Bare(w[5])])))
         == ("[" + w[0] + " " + w[1] + " " + np + "] ")
            + ("[" + w[2] + " " + postp + "] ")
            + ("[" + w[3] + " " + w[4] + " " + vp + "] ") + w[5]
  {
    var a := "[" + w[0] + " " + w[1] + " " + np + "] ";
    var b := "[" + w[2] + " " + postp + "] ";
    var c := "[" + w[3] + " " + w[4] + " " + vp + "] ";
    var t := a + b + c + w[5];
    DocExampleSpelling(w, np, postp, vp);
    // a + (b + (c + (w5 + " "))) regrouped to the left
    Associative(c, w[5], " ");
    Associative(b, c + w[5], " ");
    Associative(b, c, w[5]);
    Associative(a, b + c + w[5], " ");
    Associative(a, b + c, w[5]);
    Associative(a, b, c);
    FirstOfAppend(a, b);
    FirstOfAppend(a + b, c);
    FirstOfAppend(a + b + c, w[5]);
    LastOfAppend(a + b + c, w[5]);
    StripTrailingSpace(t);
  }

  /** The docstring example, as text: the rows B-NP I-NP B-POSTP B-VP I-VP O
      render as `[w1 w2 NP] [w3 POSTP] [w4 w5 VP] w6`, for any words (the
      last ending in a non-space) and any non-empty labels without '-'. */
  lemma DocExampleText(w: seq<string>, pos: seq<string>, np: string, postp: string, vp: string)
    requires |w| == 6 && |pos| == 6
    requires '-' !in np && '-' !in postp && '-' !in vp && np != "" && postp != "" && vp != ""
    requires w[5] != "" && !IsSpace(w[5][|w[5]| - 1])
    ensures Brackets([Item(w[0], pos[0], "B-" + np), Item(w[1], pos[1], "I-" + np),
                      Item(w[2], pos[2], "B-" + postp), Item(w[3], pos[3], "B-" + vp),
                      Item(w[4], pos[4], "I-" + vp), Item(w[5], pos[5], "O")])
            == Some(("[" + w[0] + " " + w[1] + " " + np + "] ")
                    + ("[" + w[2] + " " + postp + "] ")
                    + ("[" + w[3] + " " + w[4] + " " + vp + "] ") + w[5])
  {
    DocExampleRendersSegments(w, pos, np, postp, vp);
    DocExampleStripped(w, np, postp, vp);
  }

  // ---------------------------------------------------------------------
  // Chunker.parse and Chunker.parse_sents
  // ---------------------------------------------------------------------

  /** `parse_sents` (hazm/Chunker.py:106-107): the tagger's rows for each
      sentence, turned into a tree by `toTree` (nltk's `conlltags2tree`),
      one tree per sentence in input order. */
  function ParseSents<S, R, T>(tag: S -> R, toTree: R -> T, sentences: seq<S>): (trees: seq<T>)
    ensures |trees| == |sentences|
    ensures forall i :: 0 <= i < |sentences| ==> trees[i] == toTree(tag(sentences[i]))
  {
    if sentences == [] then []
    else [toTree(tag(sentences[0]))] + ParseSents(tag, toTree, sentences[1..])
  }

  /** `parse` (hazm/Chunker.py:94): the first tree `parse_sents` yields for
      the one-sentence list. */
  function Parse<S, R, T>(tag: S -> R, toTree: R -> T, sentence: S): (tree: T)
    ensures tree == toTree(tag(sentence))
  {
    ParseSents(tag, toTree, [sentence])[0]
  }
}
