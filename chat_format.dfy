/** The chat window's rendering of a reply (components/ChatBot.tsx,
    `formatMessage`): the text is cut at every `###`; with at least two
    non-blank pieces each piece becomes a titled section, otherwise the text is
    shown as it is. */
module ChatFormat {
  import opened Text

  const SectionMark := "###"

  datatype Section = Section(title: string, body: string)

  datatype Rendering = Plain(text: string) | Sections(sections: seq<Section>)

  /** `filter(s => s.trim())`: the pieces that are not blank, in order. */
  function KeepNonBlank(parts: seq<string>): (r: seq<string>)
    ensures |r| <= |parts|
    ensures forall k :: 0 <= k < |r| ==> !IsBlank(r[k])
    ensures forall p :: p in r <==> p in parts && !IsBlank(p)
    decreases |parts|
  {
    if parts == [] then []
    else
      var rest := KeepNonBlank(parts[1..]);
      TrimEmptyIffBlank(parts[0]);
      assert forall p :: p in parts <==> p == parts[0] || p in parts[1..];
      if Trim(parts[0]) == [] then rest else [parts[0]] + rest
  }

  /** The pieces between the `###` marks that hold more than whitespace. */
  function Pieces(text: string): (r: seq<string>)
    ensures forall k :: 0 <= k < |r| ==> !IsBlank(r[k]) && !Occurs(r[k], SectionMark)
    ensures forall p :: p in Split(text, SectionMark) && !IsBlank(p) ==> p in r
  {
    KeepNonBlank(Split(text, SectionMark))
  }

  /** One section: the first line of the trimmed piece with its brackets
      removed, trimmed, as the title; the remaining lines, trimmed, as the body. */
  function SectionOf(piece: string): (s: Section)
    ensures '[' !in s.title && ']' !in s.title && IsTrimmed(s.title)
    ensures IsTrimmed(s.body)
  {
    var lines := Split(Trim(piece), "\n");
    var title := RemoveBrackets(lines[0]);
    TrimKeepsChars(title);
    Section(Trim(title), Trim(Join(lines[1..], "\n")))
  }

  /** One section per piece, in order. */
  function SectionsOf(pieces: seq<string>): (r: seq<Section>)
    ensures |r| == |pieces|
    ensures forall k :: 0 <= k < |pieces| ==> r[k] == SectionOf(pieces[k])
  {
    seq(|pieces|, k requires 0 <= k < |pieces| => SectionOf(pieces[k]))
  }

  /** `formatMessage`. */
  function FormatMessage(text: string): (r: Rendering)
    ensures r.Plain? <==> |Pieces(text)| < 2
    ensures r.Plain? ==> r.text == text
    ensures r.Sections? ==> |r.sections| == |Pieces(text)|
    ensures r.Sections? ==> forall k :: 0 <= k < |r.sections| ==> '[' !in r.sections[k].title && ']' !in r.sections[k].title
  {
    var pieces := Pieces(text);
    if |pieces| < 2 then Plain(text)
    else Sections(SectionsOf(pieces))
  }

  // ---------------------------------------------------------------------
  // Filtering

  /** Filtering works piece by piece: it distributes over concatenation. */
  lemma {:induction false} KeepNonBlankConcat(a: seq<string>, b: seq<string>)
    ensures KeepNonBlank(a + b) == KeepNonBlank(a) + KeepNonBlank(b)
    decreases |a|
  {
    if a == [] {
      assert a + b == b;
    } else {
      assert (a + b)[1..] == a[1..] + b;
      assert (a + b)[0] == a[0];
      KeepNonBlankConcat(a[1..], b);
    }
  }

  /** A non-blank piece is kept, a blank one dropped. */
  lemma KeepNonBlankOne(p: string)
    ensures KeepNonBlank([p]) == if IsBlank(p) then [] else [p]
  {
    TrimEmptyIffBlank(p);
    assert [p][1..] == [];
  }

  /** When every piece is non-blank, nothing is dropped. */
  lemma {:induction false} KeepNonBlankAll(parts: seq<string>)
    requires forall k :: 0 <= k < |parts| ==> !IsBlank(parts[k])
    ensures KeepNonBlank(parts) == parts
    decreases |parts|
  {
    if parts != [] {
      var rest := parts[1..];
      assert forall k :: 0 <= k < |rest| ==> rest[k] == parts[k + 1];
      KeepNonBlankAll(rest);
      KeepStep(parts);
      calc {
        KeepNonBlank(parts);
        [parts[0]] + KeepNonBlank(rest);
        [parts[0]] + rest;
        { assert [parts[0]] + rest == parts; }
        parts;
      }
    }
  }

  /** The first piece of a list, when it is not blank, heads the filtered list. */
  lemma KeepStep(parts: seq<string>)
    requires parts != [] && !IsBlank(parts[0])
    ensures KeepNonBlank(parts) == [parts[0]] + KeepNonBlank(parts[1..])
  {
    TrimEmptyIffBlank(parts[0]);
  }

  // ---------------------------------------------------------------------
  // A section in terms of its lines

  /** A piece of several lines: the title comes from the first line alone, the
      body is the rest, trimmed. */
  lemma SectionOfLines(piece: string, first: string, rest: string)
    requires Trim(piece) == first + "\n" + rest && '\n' !in first
    ensures SectionOf(piece) == Section(Trim(RemoveBrackets(first)), Trim(rest))
  {
    SplitAfterFree(first, "\n", rest);
    var tail := Split(rest, "\n");
    assert ([first] + tail)[1..] == tail;
  }

  /** A piece of a single line has an empty body. */
  lemma SectionOfSingleLine(piece: string)
    requires '\n' !in Trim(piece)
    ensures SectionOf(piece) == Section(Trim(RemoveBrackets(Trim(piece))), "")
  {
    OccursHasFirstChar(Trim(piece), "\n");
    SplitFree(Trim(piece), "\n");
  }

  /** The body is empty exactly when the trimmed piece is one line or the
      lines after the first are blank. */
  lemma SectionBodyEmpty(piece: string)
    ensures SectionOf(piece).body == "" <==> '\n' !in Trim(piece) || IsBlank(Join(Split(Trim(piece), "\n")[1..], "\n"))
  {
    var lines := Split(Trim(piece), "\n");
    TrimEmptyIffBlank(Join(lines[1..], "\n"));
    if '\n' !in Trim(piece) {
      SectionOfSingleLine(piece);
    }
  }

  // ---------------------------------------------------------------------
  // A reply in the instructed layout

  /** A block of the instructed reply: `### [NAME]`, a line break, the body. */
  datatype Block = Block(name: string, body: string)

  /** A name that survives the round trip: no brackets, no mark character
      and no line break. */
  predicate GoodBlock(b: Block) {
    '[' !in b.name && ']' !in b.name && '#' !in b.name && '\n' !in b.name && '#' !in b.body
  }

  /** What lies between one `###` and the next for a block: the rest of the
      header line `### [NAME]`, the line break and the body. */
  function PieceOf(b: Block): string {
    " [" + b.name + "]\n" + b.body
  }

  function PiecesOf(blocks: seq<Block>): (r: seq<string>)
    ensures |r| == |blocks|
    ensures forall k :: 0 <= k < |blocks| ==> r[k] == PieceOf(blocks[k])
  {
    seq(|blocks|, k requires 0 <= k < |blocks| => PieceOf(blocks[k]))
  }

  /** The reply made of the blocks in order, each opened by the mark. */
  function Reply(blocks: seq<Block>): string
    decreases |blocks|
  {
    if blocks == [] then [] else SectionMark + PieceOf(blocks[0]) + Reply(blocks[1..])
  }

  /** The reply is the blocks' pieces, each behind the mark. */
  lemma {:induction false} ReplyIsPrefixed(blocks: seq<Block>)
    ensures Reply(blocks) == Prefixed(PiecesOf(blocks), SectionMark)
    decreases |blocks|
  {
    if blocks != [] {
      ReplyIsPrefixed(blocks[1..]);
      assert PiecesOf(blocks)[1..] == PiecesOf(blocks[1..]);
    }
  }

  /** The pieces of a reply behind a preamble without `#`: the preamble
      unless it is blank, then every block's piece. */
  lemma ReplyPieces(pre: string, blocks: seq<Block>)
    requires '#' !in pre
    requires blocks != [] && forall k :: 0 <= k < |blocks| ==> GoodBlock(blocks[k])
    ensures Pieces(pre + Reply(blocks)) == KeepNonBlank([pre]) + PiecesOf(blocks)
  {
    SplitReply(pre, blocks);
    KeepPieces(pre, blocks);
  }

  /** Cutting the reply at the marks gives the preamble and the pieces. */
  lemma SplitReply(pre: string, blocks: seq<Block>)
    requires '#' !in pre
    requires blocks != [] && forall k :: 0 <= k < |blocks| ==> GoodBlock(blocks[k])
    ensures Split(pre + Reply(blocks), SectionMark) == [pre] + PiecesOf(blocks)
  {
    var ps := [pre] + PiecesOf(blocks);
    ReplyIsPrefixed(blocks);
    JoinAfterHead(pre, PiecesOf(blocks), SectionMark);
    PiecesHaveNoMark(pre, blocks);
    SplitJoin(ps, SectionMark);
  }

  /** Neither the preamble nor any block's piece holds `#`. */
  lemma PiecesHaveNoMark(pre: string, blocks: seq<Block>)
    requires '#' !in pre
    requires forall k :: 0 <= k < |blocks| ==> GoodBlock(blocks[k])
    ensures forall k :: 0 <= k < |blocks| + 1 ==> '#' !in ([pre] + PiecesOf(blocks))[k]
  {
    var ps := [pre] + PiecesOf(blocks);
    forall k | 0 <= k < |ps| ensures '#' !in ps[k] {
      if k > 0 {
        assert ps[k] == PieceOf(blocks[k - 1]);
        PieceHasNoMark(blocks[k - 1]);
      }
    }
  }

  /** Every block's piece is kept; the preamble only when it is not blank. */
  lemma KeepPieces(pre: string, blocks: seq<Block>)
    ensures KeepNonBlank([pre] + PiecesOf(blocks)) == KeepNonBlank([pre]) + PiecesOf(blocks)
  {
    var ps := PiecesOf(blocks);
    KeepNonBlankConcat([pre], ps);
    forall k | 0 <= k < |ps| ensures !IsBlank(ps[k]) {
      assert ps[k][1] == '[';
    }
    KeepNonBlankAll(ps);
  }

  lemma PieceHasNoMark(b: Block)
    requires GoodBlock(b)
    ensures '#' !in PieceOf(b)
  {
    assert forall c :: c in PieceOf(b) ==> c in " []\n" || c in b.name || c in b.body;
  }

  /** A block's piece gives the block's name as the title and its trimmed body. */
  lemma SectionOfBlock(b: Block)
    requires GoodBlock(b)
    ensures SectionOf(PieceOf(b)) == Section(Trim(b.name), Trim(b.body))
  {
    HeadShape(b.name);
    var lead, tail := TrimSplit(b.body);
    if Trim(b.body) == [] {
      SectionOfBlankBlock(b, lead, tail);
    } else {
      SectionOfFullBlock(b, lead, Trim(b.body), tail);
    }
  }

  lemma SectionOfBlankBlock(b: Block, lead: string, tail: string)
    requires '\n' !in Bracketed(b.name) && IsTrimmed(Bracketed(b.name)) && RemoveBrackets(Bracketed(b.name)) == b.name
    requires b.body == lead + tail && IsBlank(lead) && IsBlank(tail)
    ensures SectionOf(PieceOf(b)) == Section(Trim(b.name), "")
  {
    BlankConcat(lead, tail);
    BlankBodyTrim(b);
    SectionOfSingleLine(PieceOf(b));
  }

  lemma SectionOfFullBlock(b: Block, lead: string, m: string, tail: string)
    requires '\n' !in Bracketed(b.name) && RemoveBrackets(Bracketed(b.name)) == b.name
    requires b.body == lead + m + tail && IsBlank(lead) && IsBlank(tail) && m != [] && IsTrimmed(m)
    ensures SectionOf(PieceOf(b)) == Section(Trim(b.name), m)
  {
    FullBodyTrim(b, lead, m, tail);
    SectionOfLines(PieceOf(b), Bracketed(b.name), lead + m);
    TrimBlankHead(lead, m);
  }

  lemma HeadShape(name: string)
    requires '[' !in name && ']' !in name && '\n' !in name
    ensures '\n' !in Bracketed(name) && IsTrimmed(Bracketed(name))
    ensures RemoveBrackets(Bracketed(name)) == name
  {
    assert forall c :: c in Bracketed(name) ==> c == '[' || c == ']' || c in name;
    RemoveBracketsOfHead(name);
  }

  /** With a blank body the piece trims to the bracketed name alone. */
  lemma BlankBodyTrim(b: Block)
    requires IsBlank(b.body) && IsTrimmed(Bracketed(b.name))
    ensures Trim(PieceOf(b)) == Bracketed(b.name)
  {
    assert PieceOf(b) == " " + Bracketed(b.name) + ("\n" + b.body);
    BlankConcat("\n", b.body);
    TrimUnique(" ", Bracketed(b.name), "\n" + b.body);
  }

  /** With a non-blank body the piece trims to the name's line, a line break
      and the body up to its trailing whitespace. */
  lemma FullBodyTrim(b: Block, lead: string, m: string, tail: string)
    requires b.body == lead + m + tail && IsBlank(tail) && m != [] && IsTrimmed(m)
    ensures Trim(PieceOf(b)) == Bracketed(b.name) + "\n" + (lead + m)
  {
    var core := Bracketed(b.name) + "\n" + (lead + m);
    assert PieceOf(b) == " " + core + tail;
    assert IsTrimmed(core) by {
      assert core[0] == '[';
      assert core[|core| - 1] == m[|m| - 1];
    }
    TrimUnique(" ", core, tail);
  }

  lemma RemoveBracketsOfHead(name: string)
    requires '[' !in name && ']' !in name
    ensures RemoveBrackets(Bracketed(name)) == name
  {
    var s := Bracketed(name);
    assert s[1..] == name + "]";
    RemoveBracketsAppendClose(name);
  }

  lemma {:induction false} RemoveBracketsAppendClose(name: string)
    requires '[' !in name && ']' !in name
    ensures RemoveBrackets(name + "]") == name
    decreases |name|
  {
    if name == [] {
      assert name + "]" == "]";
    } else {
      assert (name + "]")[1..] == name[1..] + "]";
      assert (name + "]")[0] == name[0];
      RemoveBracketsAppendClose(name[1..]);
      assert [name[0]] + name[1..] == name;
    }
  }

  /** The sections a reply of the blocks is meant to show: each block's name
      and trimmed body. */
  function BlockSections(blocks: seq<Block>): (r: seq<Section>)
    ensures |r| == |blocks|
    ensures forall k :: 0 <= k < |blocks| ==> r[k] == Section(Trim(blocks[k].name), Trim(blocks[k].body))
  {
    seq(|blocks|, k requires 0 <= k < |blocks| => Section(Trim(blocks[k].name), Trim(blocks[k].body)))
  }

  /** A reply of two or more well-formed blocks, with at most whitespace
      before the first mark, renders as exactly one section per block, in
      order, titled with the block's name and holding its trimmed body. */
  lemma FormatBlocks(pre: string, blocks: seq<Block>)
    requires '#' !in pre && IsBlank(pre)
    requires |blocks| >= 2 && forall k :: 0 <= k < |blocks| ==> GoodBlock(blocks[k])
    ensures FormatMessage(pre + Reply(blocks)) == Sections(BlockSections(blocks))
  {
    BlockPieces(pre, blocks);
    SectionsOfPieces(blocks);
  }

  /** Whitespace before the first mark gives no piece: the pieces are the
      blocks' own. */
  lemma BlockPieces(pre: string, blocks: seq<Block>)
    requires '#' !in pre && IsBlank(pre)
    requires blocks != [] && forall k :: 0 <= k < |blocks| ==> GoodBlock(blocks[k])
    ensures Pieces(pre + Reply(blocks)) == PiecesOf(blocks)
  {
    ReplyPieces(pre, blocks);
    KeepNonBlankOne(pre);
    assert KeepNonBlank([pre]) + PiecesOf(blocks) == PiecesOf(blocks);
  }

  lemma SectionsOfPieces(blocks: seq<Block>)
    requires forall k :: 0 <= k < |blocks| ==> GoodBlock(blocks[k])
    ensures SectionsOf(PiecesOf(blocks)) == BlockSections(blocks)
  {
    var l := SectionsOf(PiecesOf(blocks));
    var r := BlockSections(blocks);
    assert |l| == |r|;
    forall k | 0 <= k < |blocks|
      ensures l[k] == r[k]
    {
      SectionOfBlock(blocks[k]);
    }
    assert l == r;
  }

  /** A reply of a single block, with at most whitespace before it, stays
      plain text. */
  lemma FormatSingleBlock(pre: string, b: Block)
    requires '#' !in pre && IsBlank(pre) && GoodBlock(b)
    ensures FormatMessage(pre + Reply([b])) == Plain(pre + Reply([b]))
  {
    BlockPieces(pre, [b]);
  }

  /** Text that is not blank before the first mark becomes a section of its
      own, ahead of one section per block: the reply renders as
      `1 + |blocks|` sections, the first from the preamble and then each
      block's name and trimmed body, in order. */
  lemma FormatAfterPreamble(pre: string, blocks: seq<Block>)
    requires '#' !in pre && !IsBlank(pre)
    requires blocks != [] && forall k :: 0 <= k < |blocks| ==> GoodBlock(blocks[k])
    ensures FormatMessage(pre + Reply(blocks)).Sections?
    ensures |FormatMessage(pre + Reply(blocks)).sections| == 1 + |blocks|
    ensures FormatMessage(pre + Reply(blocks)).sections[0] == SectionOf(pre)
    ensures forall k :: 0 <= k < |blocks| ==>
      FormatMessage(pre + Reply(blocks)).sections[k + 1] == Section(Trim(blocks[k].name), Trim(blocks[k].body))
  {
    ReplyPieces(pre, blocks);
    KeepNonBlankOne(pre);
    forall k | 0 <= k < |blocks|
      ensures SectionsOf([pre] + PiecesOf(blocks))[k + 1] == Section(Trim(blocks[k].name), Trim(blocks[k].body))
    {
      BlockSectionAfter(pre, blocks, k);
    }
  }

  lemma BlockSectionAfter(pre: string, blocks: seq<Block>, k: nat)
    requires k < |blocks| && GoodBlock(blocks[k])
    ensures SectionsOf([pre] + PiecesOf(blocks))[k + 1] == Section(Trim(blocks[k].name), Trim(blocks[k].body))
  {
    assert ([pre] + PiecesOf(blocks))[k + 1] == PieceOf(blocks[k]);
    SectionOfBlock(blocks[k]);
  }

  /** Text without the mark is shown as it is. */
  lemma FormatWithoutMark(text: string)
    requires '#' !in text
    ensures FormatMessage(text) == Plain(text)
  {
    OccursHasFirstChar(text, SectionMark);
    SplitFree(text, SectionMark);
  }
}
