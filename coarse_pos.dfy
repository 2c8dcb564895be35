/** hazm/corpus_readers/treebank_reader.py, `coarse_pos_e`: the fine-grained
    tag list of one treebank word (its `lc` tag followed by the clitic,
    named-entity and other attributes) becomes one coarse tag.

    `CoarsePosE` is the value the Python function returns and `Resolved`
    the list it leaves behind (it overwrites `tags[0]` for a clitic);
    `CoarsePosInPlace` is the same computation on a mutable array. Every
    Python exception (an empty list, an empty first tag, a letter that
    `mapping` lacks) is the fallback `""`. */
module TreebankPos {
  import opened Options

  /** The `mapping` dictionary: first letter of a fine tag to coarse tag. */
  function Coarse(c: char): (r: Option<string>)
    ensures r.Some? <==> c in "NVADZTEPUJORLI"
    ensures r.Some? ==> r.value in CoarseTags
  {
    match c
    case 'N' => Some("N")
    case 'V' => Some("V")
    case 'A' => Some("AJ")
    case 'D' => Some("ADV")
    case 'Z' => Some("PRO")
    case 'T' => Some("DET")
    case 'E' => Some("P")
    case 'P' => Some("POSTP")
    case 'U' => Some("NUM")
    case 'J' => Some("CONJ")
    case 'O' => Some("PUNC")
    case 'R' => Some("RES")
    case 'L' => Some("CL")
    case 'I' => Some("INT")
    case _ => None
  }

  /** The fourteen values of `mapping`. */
  const CoarseTags: set<string> :=
    {"N", "V", "AJ", "ADV", "PRO", "DET", "P", "POSTP", "NUM", "CONJ", "PUNC", "RES", "CL", "INT"}

  /** The clitic keywords in the order they are tried, and the letters
      they stand for. */
  const Keywords: seq<string> := ["pronominal", "verb", "prep", "adv", "det"]
  const KeywordLetters: seq<char> := ['Z', 'V', 'E', 'D', 'T']

  /** The letter a clitic (`C...`) tag is rewritten to: that of the first
      keyword, in priority order, present in the list. */
  function CliticLetter(tags: seq<string>): (r: Option<char>)
    ensures r.Some? <==> exists k :: 0 <= k < |Keywords| && Keywords[k] in tags
    ensures r.Some? ==> r.value in KeywordLetters
  {
    assert Keywords[0] == "pronominal" && Keywords[1] == "verb" && Keywords[2] == "prep";
    assert Keywords[3] == "adv" && Keywords[4] == "det";
    if "pronominal" in tags then Some('Z')
    else if "verb" in tags then Some('V')
    else if "prep" in tags then Some('E')
    else if "adv" in tags then Some('D')
    else if "det" in tags then Some('T')
    else None
  }

  /** A first tag starting with 'C'. */
  predicate IsClitic(tags: seq<string>)
  {
    tags != [] && tags[0] != [] && tags[0][0] == 'C'
  }

  /** The list after the clitic rewrite: `tags[0]` becomes the one-letter
      tag of the keyword found, when the first tag is a clitic and a
      keyword is present; nothing else changes. */
  function Resolved(tags: seq<string>): (r: seq<string>)
    ensures |r| == |tags|
    ensures forall i :: 0 < i < |tags| ==> r[i] == tags[i]
    ensures r != tags <==> IsClitic(tags) && CliticLetter(tags).Some?
    ensures IsClitic(tags) && CliticLetter(tags).Some? ==> r[0] == [CliticLetter(tags).value]
  {
    if IsClitic(tags) && CliticLetter(tags).Some? then tags[0 := [CliticLetter(tags).value]]
    else tags
  }

  /** `coarse_pos_e(tags)`: the coarse tag of the first letter of the
      (resolved) first tag, with "e" appended when "ezafe" is in the list;
      `""` on every failure. */
  function CoarsePosE(tags: seq<string>): string
  {
    var t := Resolved(tags);
    if t == [] || t[0] == [] then ""
    else match Coarse(t[0][0])
      case None => ""
      case Some(c) => c + (if "ezafe" in t then "e" else "")
  }

  /** `coarse_pos_e` on the caller's list, which it changes in place. */
  method CoarsePosInPlace(tags: array<string>) returns (r: string)
    modifies tags
    ensures tags[..] == Resolved(old(tags[..]))
    ensures r == CoarsePosE(old(tags[..]))
  {
    if tags.Length == 0 || tags[0] == [] {
      return "";
    }
    if tags[0][0] == 'C' {
      if "pronominal" in tags[..] {
        tags[0] := "Z";
      } else if "verb" in tags[..] {
        tags[0] := "V";
      } else if "prep" in tags[..] {
        tags[0] := "E";
      } else if "adv" in tags[..] {
        tags[0] := "D";
      } else if "det" in tags[..] {
        tags[0] := "T";
      }
    }
    var c := Coarse(tags[0][0]);
    if c.None? {
      return "";
    }
    r := c.value + (if "ezafe" in tags[..] then "e" else "");
  }

  // ---------------------------------------------------------------------
  // What the mapping promises
  // ---------------------------------------------------------------------

  /** The rewrite neither adds nor removes the "ezafe" marker. */
  lemma ResolvedKeepsEzafe(tags: seq<string>)
    ensures ("ezafe" in Resolved(tags)) <==> ("ezafe" in tags)
  {
    var t := Resolved(tags);
    if t != tags {
      assert t[0] != "ezafe" && tags[0] != "ezafe";
      assert forall i :: 0 <= i < |tags| && i != 0 ==> t[i] == tags[i];
      if "ezafe" in tags {
        var i :| 0 <= i < |tags| && tags[i] == "ezafe";
        assert t[i] == "ezafe";
      }
      if "ezafe" in t {
        var i :| 0 <= i < |t| && t[i] == "ezafe";
        assert tags[i] == "ezafe";
      }
    }
  }

  /** The result is `""` or one of the fourteen coarse tags, possibly
      followed by the ezafe "e". */
  lemma CoarsePosRange(tags: seq<string>)
    ensures var r := CoarsePosE(tags);
            r == "" || exists b :: b in CoarseTags && (r == b || r == b + "e")
  {
    var t := Resolved(tags);
    if t != [] && t[0] != [] && Coarse(t[0][0]).Some? {
      var b := Coarse(t[0][0]).value;
      assert b in CoarseTags;
    }
  }

  /** A non-empty result ends in 'e' exactly when "ezafe" is in the list:
      no coarse tag ends in a lower-case 'e'. */
  lemma EzafeSuffix(tags: seq<string>)
    requires CoarsePosE(tags) != ""
    ensures var r := CoarsePosE(tags);
            r[|r| - 1] == 'e' <==> "ezafe" in tags
  {
    ResolvedKeepsEzafe(tags);
    var t := Resolved(tags);
    var b := Coarse(t[0][0]).value;
    assert b in CoarseTags && b != [];
    assert b[|b| - 1] != 'e';
  }

  /** The fallback `""` is returned exactly when Python raises: an empty
      list, an empty first tag, a clitic without any keyword (`mapping`
      has no "C"), or a first letter `mapping` lacks. */
  lemma CoarsePosFails(tags: seq<string>)
    ensures CoarsePosE(tags) == "" <==>
              || tags == []
              || tags[0] == []
              || (tags[0][0] == 'C' && CliticLetter(tags).None?)
              || (tags[0][0] != 'C' && Coarse(tags[0][0]).None?)
  {
    var t := Resolved(tags);
    if tags != [] && tags[0] != [] && t != tags {
      var c := CliticLetter(tags).value;
      assert t[0] == [c] && Coarse(c).Some?;
    }
    if tags != [] && tags[0] != [] && Coarse(t[0][0]).Some? {
      assert Coarse(t[0][0]).value != "";
    }
  }

  /** A first tag that is not a clitic selects its coarse tag by its first
      letter alone; only the ezafe marker in the rest of the list matters. */
  lemma CoarsePosOfLetter(tags: seq<string>)
    requires tags != [] && tags[0] != [] && tags[0][0] != 'C' && Coarse(tags[0][0]).Some?
    ensures CoarsePosE(tags) == Coarse(tags[0][0]).value + (if "ezafe" in tags then "e" else "")
  {
  }

  /** A clitic tag is read as the one-letter tag of its keyword. */
  lemma CliticAsLetter(tags: seq<string>)
    requires IsClitic(tags) && CliticLetter(tags).Some?
    ensures CoarsePosE(tags) == CoarsePosE([[CliticLetter(tags).value]] + tags[1..])
  {
    var t := Resolved(tags);
    assert t == [[CliticLetter(tags).value]] + tags[1..];
  }

  /** The keyword chosen is the first of the priority list present in the
      list: keyword `k` decides exactly when it is present and none before
      it is. */
  lemma CliticPriority(tags: seq<string>, k: nat)
    requires k < |Keywords|
    ensures CliticLetter(tags) == Some(KeywordLetters[k]) <==>
              Keywords[k] in tags && forall j :: 0 <= j < k ==> Keywords[j] !in tags
  {
    assert Keywords[0] == "pronominal" && Keywords[1] == "verb" && Keywords[2] == "prep";
    assert Keywords[3] == "adv" && Keywords[4] == "det";
  }

  /** A clitic with no keyword at all falls back to `""`. */
  lemma CliticWithoutKeyword(tags: seq<string>)
    requires IsClitic(tags) && forall j :: 0 <= j < |Keywords| ==> Keywords[j] !in tags
    ensures CoarsePosE(tags) == ""
  {
    assert Keywords[0] == "pronominal" && Keywords[1] == "verb" && Keywords[2] == "prep";
    assert Keywords[3] == "adv" && Keywords[4] == "det";
  }

  /** The docstring example: `['Nasp---', 'pers', 'prop']` gives `'N'`. */
  lemma DocExample()
    ensures CoarsePosE(["Nasp---", "pers", "prop"]) == "N"
  {
    var tags := ["Nasp---", "pers", "prop"];
    assert !IsClitic(tags);
    assert "ezafe" !in tags;
  }
}
