# hazm chunking core in Dafny

This project models the shallow-parsing (chunking) core of hazm, a Persian
NLP toolkit. It also proves properties of the model.

- `chunker.dfy` (module `Chunker`) covers two parts of `hazm/Chunker.py`.
  - `tree2brackets` turns a chunk tree into bracketed text such as
    `[w1 w2 NP] [w3 POSTP] [w4 w5 VP] w6`. It reads the tree through its IOB
    rows: (word, POS tag, chunk tag), where `B-X` begins a chunk labelled X,
    `I-X` continues it and `O` is outside every chunk.
    - The renderer is a method with its loop (`Tree2Brackets`). It is proved
      equal to `Brackets`, a specification at the level of the pieces it
      writes.
    - `Group` reads the rows independently as a list of chunks and bare
      words. The lemmas show that, when every `B` tag carries a non-empty
      label, the rendering is exactly those chunks in brackets and the
      brackets never nest and are all closed. (A `B-` tag opens a bracket
      that is never closed, in Python and in the model alike.) They also show
      that every word is written once and in order, and that a `[` comes
      right before the words of `B` rows and nowhere else.
    - The docstring example is proved down to the rendered text.
  - `Chunker.parse` and `Chunker.parse_sents` are modelled over an abstract
    tagger and an abstract `conlltags2tree`.
- `coarse_pos.dfy` (module `TreebankPos`) covers `coarse_pos_e` from
  `hazm/corpus_readers/treebank_reader.py`. It maps fine-grained treebank
  tags to coarse ones and resolves clitics by keyword priority.
  - It is a pure function plus a method that rewrites the caller's array in
    place, as Python does with `tags[0]`.
  - Every Python exception is the fallback `""`.
- `chunked_trees.dfy` (module `TreebankChunks`) covers
  `TreebankReader.chunked_trees`, which turns a treebank syntax tree into a
  flat `S` tree of chunks.
  - The shared `chunks` list is the field of the class `ChunkList`.
    - `traverse` is `ChunkList.Traverse` (with `TraverseKids` for its loops
      over the children). It is proved against the recursive function
      `Chunks`.
    - The final in-place loop is `ChunkList.Finish`, proved against
      `FinishAll`.
  - The rule cascade of `traverse` is `Classify`. Python exceptions are
    `None`.
  - The lemmas show three things about a tree. The words are kept, in
    order. The final loop never fails on what `traverse` appended. And
    every chunk is flat when the tree's PUNC and CONJ nodes are
    preterminals.
  - Further lemmas restate rules of the cascade as properties of
    `Classify`. They cover the lone CONJ/PUNC rule, PPC, PREP and PostP,
    the stop-leaf descent, every NPA rule (by parent, by first child, by
    the pair of first two children), the NP label set, and the VP, ADJP
    and ADVP wrappers.
- `strings.dfy` (module `Strings`) models the Python string built-ins the
  code calls: `str.strip()`, `str.split(sep)[1]` and `str.replace(p, "")`.
- `seqs.dfy` holds small sequence facts. `options.dfy` holds `Option`.

## Model

| member | source | states |
|---|---|---|
| Chunker.Brackets | hazm/Chunker.py:42-56 | the renderer fails (Python raises) exactly when some row has an empty chunk tag or a `B` tag without '-' |
| Chunker.Tree2Brackets | hazm/Chunker.py:42-56 | the loop over the IOB rows returns exactly `Brackets(items)`: the stripped text of the pieces `Emit` prescribes, or `None` when a row is not renderable |
| Chunker.WriteRow | hazm/Chunker.py:44-51 | one loop iteration writes the closing piece (on a `B` or `O` row with a label open), then `[` (on a `B` row), then the word, and the open label becomes `NextTag` |
| Chunker.ChunkLabel | hazm/Chunker.py:49 | the label taken from a `B` tag, `split("-")[1]`, never contains '-' |
| Chunker.BeginLabel | hazm/Chunker.py:48-49 | a row tagged `B-X`, with X free of '-', is a `B` row that opens label X |
| Chunker.BracketsEmpty | hazm/Chunker.py:42-56 | a tree without words renders as the empty string |
| Chunker.EmitKeepsWords | hazm/Chunker.py:43-51 | the words among the written pieces are the words of the rows, each once and in order |
| Chunker.BeginFlags | hazm/Chunker.py:48 | flag `i` is set exactly when row `i` is a `B` row |
| Chunker.EmitOpensExactlyAtB | hazm/Chunker.py:44-51 | a `[` is written right before a word exactly when that word's row is a `B` row |
| Chunker.TrackBefore | hazm/Chunker.py:44-51 | one row moves the bracket state legally, from "some label open" to "a label open after the row" |
| Chunker.EmitBalanced | hazm/Chunker.py:42-54 | with non-empty labels, the written brackets never nest and none is left open, from any starting label |
| Chunker.BalancedCounts | hazm/Chunker.py:42-54 | balanced pieces contain as many `[` as `]` |
| Chunker.AfterRun | hazm/Chunker.py:44-48 | the rows after a run of `I` rows are empty or start with a `B` or `O` row |
| Chunker.EmitThroughRun | hazm/Chunker.py:44-54 | with a label open, the renderer writes the words of the following `I` rows, then closes that label, then continues with nothing open |
| Chunker.EmitChunk | hazm/Chunker.py:44-54 | a `B` row with a non-empty label is written as its whole chunk in brackets |
| Chunker.EmitRendersGroups | hazm/Chunker.py:42-54 | with non-empty labels, the written pieces are exactly the bracketed chunks and bare words of `Group` |
| Chunker.Emit | hazm/Chunker.py:42-54 | the pieces the loop writes, row by row from an open label: a close on a `B` or `O` row with a label open, a `[` on a `B` row, the word; a final close (no contract; its properties are the lemmas below) |
| Chunker.BracketsRendersGroups | hazm/Chunker.py:42-56 | when every row is renderable and every `B` tag carries a non-empty label, `tree2brackets` returns the stripped spelling of `Group`'s chunks in brackets and its bare words |
| Chunker.DocExampleTail | hazm/Chunker.py:25-33 | rows `B-POSTP B-VP I-VP O` group into a POSTP chunk, a two-word VP chunk and a bare word |
| Chunker.DocExampleGroups | hazm/Chunker.py:25-33 | the docstring's rows `B-NP I-NP B-POSTP B-VP I-VP O` group as an NP chunk of two words, a POSTP chunk, a VP chunk of two words and a bare word |
| Chunker.DocExampleRenderable | hazm/Chunker.py:25-33 | every row of the docstring example is renderable |
| Chunker.DocExampleLabels | hazm/Chunker.py:25-33 | every `B` row of the docstring example opens a non-empty label |
| Chunker.DocExampleRendersSegments | hazm/Chunker.py:25-33 | the docstring rows render as the stripped spelling of those four segments |
| Chunker.DocExampleStripped | hazm/Chunker.py:32-33 | those four segments spell, once stripped, `[w1 w2 NP] [w3 POSTP] [w4 w5 VP] w6` |
| Chunker.DocExampleText | hazm/Chunker.py:25-33 | `tree2brackets` of the docstring rows is exactly the text `[w1 w2 NP] [w3 POSTP] [w4 w5 VP] w6`, for any words (the last ending in non-whitespace) and any non-empty labels without '-' |
| Chunker.ParseSents | hazm/Chunker.py:106-107 | one tree per sentence, in order: the tagger's rows for that sentence turned into a tree |
| Chunker.Parse | hazm/Chunker.py:94 | `parse` is the first tree of `parse_sents` on the one-sentence list, which is that sentence's tree |
| Strings.Strip | hazm/Chunker.py:56 | `strip()` returns a substring of `s` with only whitespace around it, starting and ending with non-whitespace; it is empty exactly when `s` is all whitespace |
| Strings.StripOf | hazm/Chunker.py:56 | `strip()` removes exactly the whitespace around text that starts and ends with non-whitespace |
| Strings.SecondField | hazm/Chunker.py:49 | `split(sep)[1]` contains no `sep` and is shorter than its input |
| Strings.SecondFieldOf | hazm/Chunker.py:49 | `split(sep)[1]` of `a + sep + b + rest` is `b` when `a` and `b` hold no `sep` |
| Strings.RemoveAll | hazm/corpus_readers/treebank_reader.py:280-285 | `str.replace(p, "")`; its own contract says only that the text never gets longer. The left-to-right, non-overlapping deletion is stated by `RemoveAllKeepsPrefix` and `RemoveAllLeading` |
| Strings.StripTrailingSpace | hazm/Chunker.py:56 | `strip()` of a text that starts and ends with non-whitespace, followed by the space `tree2brackets` writes last, is that text |
| Strings.RemoveAllKeepsPrefix | hazm/corpus_readers/treebank_reader.py:280-285 | `replace(p, "")` leaves untouched a prefix in which no occurrence of `p` starts |
| Strings.RemoveAllLeading | hazm/corpus_readers/treebank_reader.py:280-285 | `replace(p, "")` on `p + rest` deletes the leading `p` and continues on `rest` |
| Strings.RemoveAllDashFree | hazm/corpus_readers/treebank_reader.py:280-285 | `replace` leaves text without '-' alone and deletes a '-'-led pattern appended to it |
| TreebankPos.Coarse | hazm/corpus_readers/treebank_reader.py:38-53 | `mapping` is defined exactly on the fourteen letters N V A D Z T E P U J O R L I, and its values are the fourteen coarse tags |
| TreebankPos.CliticLetter | hazm/corpus_readers/treebank_reader.py:55-65 | a clitic letter is found exactly when one of the five keywords is in the list, and it is one of Z V E D T |
| TreebankPos.CoarsePosE | hazm/corpus_readers/treebank_reader.py:24-68 | the value `coarse_pos_e` returns: `mapping` of the first letter of the resolved first tag, plus "e" with "ezafe", `""` on any exception (no contract; its properties are the lemmas below) |
| TreebankPos.Resolved | hazm/corpus_readers/treebank_reader.py:55-65 | only `tags[0]` can change; it changes exactly when it is a clitic tag (starting with `C`) and a keyword is present, and then it becomes the first present keyword's letter |
| TreebankPos.CoarsePosInPlace | hazm/corpus_readers/treebank_reader.py:24-68 | the caller's list is left as `Resolved` of the old list and the result is `CoarsePosE` of the old list |
| TreebankPos.ResolvedKeepsEzafe | hazm/corpus_readers/treebank_reader.py:55-66 | the clitic rewrite neither adds nor removes "ezafe" |
| TreebankPos.CoarsePosRange | hazm/corpus_readers/treebank_reader.py:38-68 | the result is `""` or one of the fourteen mapped tags, optionally followed by "e" |
| TreebankPos.EzafeSuffix | hazm/corpus_readers/treebank_reader.py:66 | a non-empty result ends in 'e' exactly when "ezafe" is in the list |
| TreebankPos.CoarsePosFails | hazm/corpus_readers/treebank_reader.py:54-68 | the result is `""` exactly for an empty list, an empty first tag, a clitic without a keyword, or an unmapped first letter |
| TreebankPos.CoarsePosOfLetter | hazm/corpus_readers/treebank_reader.py:38-66 | a non-clitic first tag is mapped by its first letter, with "e" appended when "ezafe" is present |
| TreebankPos.CliticAsLetter | hazm/corpus_readers/treebank_reader.py:55-66 | a clitic with a keyword is read as the one-letter tag of that keyword |
| TreebankPos.CliticPriority | hazm/corpus_readers/treebank_reader.py:56-65 | keyword `k` decides the clitic exactly when it is present and no keyword earlier in the priority order is |
| TreebankPos.CliticWithoutKeyword | hazm/corpus_readers/treebank_reader.py:55-68 | a clitic with none of the five keywords yields `""` |
| TreebankPos.DocExample | hazm/corpus_readers/treebank_reader.py:27-29 | `['Nasp---', 'pers', 'prop']` gives `'N'` |
| TreebankChunks.Leaves | hazm/corpus_readers/treebank_reader.py:409 | nltk's `leaves()`: the leaf tuples, left to right (no contract; see `LeavesAreLeaf`, `CollapseKeepsLeaves`) |
| TreebankChunks.LeavesAreLeaf | hazm/corpus_readers/treebank_reader.py:409 | `leaves()` returns only leaf tuples |
| TreebankChunks.PosOf | hazm/corpus_readers/treebank_reader.py:275 | nltk's `pos()`: every leaf paired with the label of the node directly above it (no contract; see `PosKeepsLeaves`) |
| TreebankChunks.AnyStop | hazm/corpus_readers/treebank_reader.py:315-316 | some pair of `pos()` has a stop label (PUNC, CONJ, PREP, PostP) exactly when some index holds one |
| TreebankChunks.HasStop | hazm/corpus_readers/treebank_reader.py:315-316 | the stop-leaf test: some leaf of the node sits directly under PUNC, CONJ, PREP or PostP (no contract; `AnyStop` characterises it, `StopLeafDescends` states the rule) |
| TreebankChunks.Preterminals | hazm/corpus_readers/treebank_reader.py:275 | one preterminal per pair of `pos()`, in order: element `i` is a node labelled with pair `i`'s parent label over pair `i`'s leaf |
| TreebankChunks.Firsts | hazm/corpus_readers/treebank_reader.py:275 | the leaves of the pairs of `pos()`, in order: element `i` is pair `i`'s leaf |
| TreebankChunks.Collapse | hazm/corpus_readers/treebank_reader.py:274-275 | `collapse(node, label)`: a node labelled `label` over the preterminals of `pos()` (no contract; see `CollapseKeepsLeaves`) |
| TreebankChunks.CollapseKeepsLeaves | hazm/corpus_readers/treebank_reader.py:274-275 | `collapse` keeps the leaves of the node, in order |
| TreebankChunks.PosKeepsLeaves | hazm/corpus_readers/treebank_reader.py:275 | the leaves paired by `pos()` are the node's leaves, in order |
| TreebankChunks.RelabelClitic | hazm/corpus_readers/treebank_reader.py:287-297 | `node[0][1]` raises exactly for an empty CLITIC(S) node or one whose first child is a node with fewer than two children; a changed label comes only from a CLITIC(S) node over a leaf; over a leaf tagged V, P, DET, ADV or PRO the label becomes V, PREP, DET, ADV or PRON respectively, and any other tag leaves it alone |
| TreebankChunks.NormalizeLabel | hazm/corpus_readers/treebank_reader.py:280-285 | the label with "-nid" removed twice, then "-DiscA" removed (no contract; see `NormalizeLabelDropsMarkers`) |
| TreebankChunks.Label | hazm/corpus_readers/treebank_reader.py:278-297 | the label the cascade tests: the node's label normalised, then clitic-relabelled (no contract; see `RelabelClitic`, `NormalizeLabelDropsMarkers`) |
| TreebankChunks.NpaPair | hazm/corpus_readers/treebank_reader.py:350-365 | the seven label-pair conditions on an NPA node's first two children (no contract; `NpaPairRule` states the rule they decide) |
| TreebankChunks.EarlyRule | hazm/corpus_readers/treebank_reader.py:299-313 | the four rules before the stop-leaf test (no contract; see `EarlyRelabels`, `LoneStopKept`, `EarlyChunk`) |
| TreebankChunks.NounRule | hazm/corpus_readers/treebank_reader.py:321-368 | the NPA and NP-set rules, with their exceptions (no contract; see the `Npa*` lemmas, `NounLabelsCollapse`, `NounChunk`) |
| TreebankChunks.LateRule | hazm/corpus_readers/treebank_reader.py:383-400 | the VP, ADJP, ADVP wrappers, the leaf-first rule and descent (no contract; see `PhraseRelabels`, `LateChunk`) |
| TreebankChunks.Classify | hazm/corpus_readers/treebank_reader.py:278-400 | the whole cascade for one node, in the code's order (no contract; see `AppendedChunk` and the rule lemmas) |
| TreebankChunks.Chunks | hazm/corpus_readers/treebank_reader.py:277-400 | the chunks `traverse` appends for a node, `None` when it raises (no contract; see `ChunksFacts`) |
| TreebankChunks.ChunksOfKids | hazm/corpus_readers/treebank_reader.py:399-400 | the chunks of the children, in order (no contract; see `ChunksOfKidsFacts`) |
| TreebankChunks.FinishChunk | hazm/corpus_readers/treebank_reader.py:406-409 | the rewrite of one chunk by the final loop (no contract; see `FinishChunkFacts`) |
| TreebankChunks.FinishAll | hazm/corpus_readers/treebank_reader.py:405-409 | every chunk rewritten, in order (no contract; see `FinishAllFacts`) |
| TreebankChunks.ChunkedTree | hazm/corpus_readers/treebank_reader.py:402-410 | `S` over the rewritten chunks of one tree (no contract; see `ChunkedTreeKeepsLeaves`, `ChunkedTreeFlat`) |
| TreebankChunks.NormalizeLabelDropsMarkers | hazm/corpus_readers/treebank_reader.py:280-285 | a plain label, and a plain label followed by "-nid" or "-DiscA", normalise to the plain label |
| TreebankChunks.EarlyRelabels | hazm/corpus_readers/treebank_reader.py:303-313 | a one-child PPC becomes PP over its child; PREP becomes PP and PostP becomes POSTP over the node |
| TreebankChunks.LoneStopKept | hazm/corpus_readers/treebank_reader.py:299-301 | a CONJ or PUNC node with a single child is appended as it is |
| TreebankChunks.NpaByParent | hazm/corpus_readers/treebank_reader.py:321-323 | past the stop-leaf test, an NPA node at the root raises (`parent` is `None`) and one under CPC or PPC is collapsed into NP |
| TreebankChunks.NpaFirstChild | hazm/corpus_readers/treebank_reader.py:325-327 | past the stop-leaf test and under another parent, an NPA node raises with no children or a leaf first child, is collapsed into NP with an ADV first child, and is descended into when its only child is another node |
| TreebankChunks.NpaPairRule | hazm/corpus_readers/treebank_reader.py:347-368 | an NPA node with two or more children, not starting with ADV: raises when its second child is a leaf tuple, else is collapsed into NP exactly when its first two labels form a listed pair and descended into otherwise |
| TreebankChunks.StopLeafDescends | hazm/corpus_readers/treebank_reader.py:299-319 | a node with a leaf under PUNC, CONJ, PREP or PostP is taken by an early rule or descended into |
| TreebankChunks.NounLabelsCollapse | hazm/corpus_readers/treebank_reader.py:329-345 | past the stop-leaf test, the NP labels are collapsed into one NP |
| TreebankChunks.NounChunk | hazm/corpus_readers/treebank_reader.py:321-368 | every chunk an NP rule appends is the node collapsed into NP |
| TreebankChunks.PhraseRelabels | hazm/corpus_readers/treebank_reader.py:383-393 | past the stop-leaf test, verb, adjective and adverb labels become VP, ADJP and ADVP over the node |
| TreebankChunks.LateChunk | hazm/corpus_readers/treebank_reader.py:383-397 | a late chunk is the node itself (first child a leaf) or a VP/ADJP/ADVP over it |
| TreebankChunks.DpcDpaAreNouns | hazm/corpus_readers/treebank_reader.py:329-381 | DPC and DPA nodes are collapsed into NP or descended into before the DPC and DPA rules are reached |
| TreebankChunks.EarlyChunk | hazm/corpus_readers/treebank_reader.py:299-313 | an early chunk keeps the node's leaves, and a PUNC/CONJ chunk has one child |
| TreebankChunks.AppendedChunk | hazm/corpus_readers/treebank_reader.py:299-397 | every appended chunk has the leaves of its node and is one the final loop can rewrite |
| TreebankChunks.ChunksFacts | hazm/corpus_readers/treebank_reader.py:277-400 | the chunks `traverse` appends hold the tree's leaves in order; each is rewritable; in a tidy tree each PUNC/CONJ chunk sits over leaves |
| TreebankChunks.ChunksOfKidsFacts | hazm/corpus_readers/treebank_reader.py:399-400 | the same for the loop over a node's children |
| TreebankChunks.FinishChunkFacts | hazm/corpus_readers/treebank_reader.py:405-409 | rewriting a good chunk never raises and keeps its leaves; it is flat afterwards unless it is a PUNC or CONJ chunk with a child that is a node, which line 407 leaves as it is |
| TreebankChunks.FinishAllFacts | hazm/corpus_readers/treebank_reader.py:405-409 | the final loop never raises on rewritable chunks, keeps their number and their leaves |
| TreebankChunks.ChunkedTreeKeepsLeaves | hazm/corpus_readers/treebank_reader.py:402-410 | the result is an `S` tree whose leaves are the treebank tree's leaves, in order |
| TreebankChunks.ChunkedTreeFailsOnlyInTraverse | hazm/corpus_readers/treebank_reader.py:402-410 | a tree yields a result exactly when `traverse` does not raise on it |
| TreebankChunks.ChunkedTreeFlat | hazm/corpus_readers/treebank_reader.py:402-410 | on a tree whose PUNC and CONJ nodes are preterminals, every child of `S` is a leaf or a node over leaves |
| TreebankChunks.ChunkList.constructor | hazm/corpus_readers/treebank_reader.py:403 | a new chunk list is empty |
| TreebankChunks.ChunkList.Traverse | hazm/corpus_readers/treebank_reader.py:277-400 | succeeds exactly when `Chunks` does, and then appends exactly `Chunks(node, parent)` to the list |
| TreebankChunks.ChunkList.TraverseKids | hazm/corpus_readers/treebank_reader.py:399-400 | succeeds exactly when `ChunksOfKids` does, and then appends exactly its chunks |
| TreebankChunks.ChunkList.Finish | hazm/corpus_readers/treebank_reader.py:405-409 | succeeds exactly when `FinishAll` does, and then the list is `FinishAll` of the old list |
| TreebankChunks.ChunkTree | hazm/corpus_readers/treebank_reader.py:402-410 | one iteration of the generator returns exactly `ChunkedTree(t)` |

## Left out

- nltk's `tree2conlltags` and `conlltags2tree` are not part of this model.
  `tree2brackets` starts from the IOB rows. `parse_sents` takes
  `conlltags2tree` as a function parameter.
- The trained tagger (`IOBTagger.tag_sents`, a CRF model loaded from a file)
  is a function parameter of `ParseSents` and `Parse`.
- `Chunker.train` and `Chunker.evaluate` are not modelled. They hand data
  to the tagger and to nltk's scorer, and do nothing of their own.
- Chunker.ParseSents: the batch `tag_sents` is modelled as a function
  applied to each sentence on its own. This choice is what makes "one tree
  per sentence, in order" hold. It also means `next()` in `parse` (line 94)
  can never raise `StopIteration`. The generator is modelled as the sequence
  it yields, and `Parse` takes its first element.
- TreebankChunks.ChunkTree: `chunked_trees` is a generator over
  `self.trees()`, which reads the corpus files. The model is one iteration
  of its loop, for one tree. Reading files and building the tree from XML
  are left out.
- TreebankChunks.RelabelClitic: leaves are modelled as `(word, tag)`
  pairs. `trees()` builds a word's leaf as the one-element tuple `(tag,)`
  (treebank_reader.py:178). Two-field `(word, tag)` tuples are written
  only by clitic joining and by verb-part joining (lines 204, 212-215 and
  228-231). On a one-element tuple, `node[0][1]` at line 288
  would raise for a CLITIC node over such a leaf. The model reads the tag
  as the second field of a pair.
- TreebankChunks.ChunkList.Traverse: when Python raises part-way, the model
  does not say what had already been appended. The exception ends the
  generator, so that list is never seen.
- TreebankChunks.ChunkedTreeFlat: flatness is proved only for trees whose
  PUNC and CONJ nodes are preterminals. A PUNC or CONJ node over one node
  becomes that node unflattened, exactly as in the code.
- TreebankChunks.NormalizeLabelDropsMarkers: stated for a dash-free label
  with at most one trailing marker. The function `NormalizeLabel` itself
  models the full three-step `replace`.
- Lines 370-381 (the DPC and DPA rules) are not given a model of their own.
  DPC and DPA are already in the NP set of lines 329-345, so those rules can
  never fire. `DpcDpaAreNouns` proves this.
- TreebankPos.CoarsePosE: tags are strings. A `None` element (which the
  corpus reader can put in the list) is not modelled. A `None` first tag
  fails like an empty one.
- Chunker.Brackets: a Python exception is `None`, not the exception
  itself. `tree2conlltags` never produces an empty chunk tag or a `B` tag
  without '-'.
- Chunker.DocExampleText: the docstring's Persian words, their POS tags
  and the labels NP, POSTP and VP are left symbolic. The lemma holds for
  any words whose last word ends in non-whitespace, and any non-empty
  labels without '-'.
- Strings: strings are sequences of code points. `str.strip()` is modelled
  with Python's set of whitespace code points.
