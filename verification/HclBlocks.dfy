/**
 The files of an exported Terraform project (core/terraform_export.py): a comment line, then blocks of a
 kind, labels and attributes with blank lines between them.
 */
module HclBlocks {
  import opened Common
  import opened Text
  import opened JsonString
  import opened PyValue
  import opened ValueText

  datatype Block = Block(kind: string, labels: seq<string>, attrs: seq<(string, Value)>)

  // ----- Writing -----

  function LabelsText(labels: seq<string>): string {
    if labels == [] then "" else " " + (Quote(Strip(labels[0])) + LabelsText(labels[1..]))
  }

  /** The attribute lines between braces; without attributes the closing brace still has its own line. */
  function Body(show: Show, b: Block, indent: nat): string {
    "{" + (Entries(Hcl(show), Dict(b.attrs), 0, indent) + "}")
  }

  /** `_hcl_block(kind, labels, attrs, indent)`. */
  function BlockText(show: Show, b: Block, indent: nat): string {
    Pad(indent) + (b.kind + (LabelsText(b.labels) + (" " + Body(show, b, indent))))
  }

  /** The blocks joined by blank lines, and the end of the last line. */
  function BlocksText(show: Show, blocks: seq<Block>): string
    decreases |blocks|, 0
  {
    if blocks == [] then "" else BlockText(show, blocks[0], 0) + Continued(show, blocks[1..])
  }

  function Continued(show: Show, blocks: seq<Block>): string
    decreases |blocks|, 1
  {
    if blocks == [] then "\n" else "\n\n" + BlocksText(show, blocks)
  }

  /** A file: its header and an empty line, then the blocks, or a note that there are none. */
  function FileText(show: Show, header: string, blocks: seq<Block>, note: string): string {
    header + ("\n" + if blocks == [] then note else BlocksText(show, blocks))
  }

  // ----- Reading -----

  function ReadLabels(s: string): (r: Option<(seq<string>, string)>)
    ensures r.Some? ==> |r.value.1| <= |s|
    decreases |s|
  {
    var t := Skip(s);
    if t == [] || t[0] != '\"' then Some(([], t))
    else
      var name := ReadString(t);
      if name.None? then None
      else
        var more := ReadLabels(name.value.1);
        if more.None? then None else Some(([name.value.0] + more.value.0, more.value.1))
  }

  function ReadBlock(s: string): (r: Option<(Block, string)>)
    ensures r.Some? ==> |r.value.1| < |s|
  {
    var (kind, rest) := TakeIdent(Skip(s));
    if kind == [] then None
    else
      var labels := ReadLabels(rest);
      if labels.None? then None
      else
        var body := Read(labels.value.1);
        if body.None? || !body.value.0.Dict? then None
        else Some((Block(kind, labels.value.0, body.value.0.entries), body.value.1))
  }

  /** What follows the first line. */
  function NextLine(s: string): (r: string)
    ensures s != [] ==> |r| < |s|
  {
    if s == [] then [] else if s[0] == '\n' then s[1..] else NextLine(s[1..])
  }

  /** Leaves blanks and comment lines out. */
  function SkipComments(s: string): (r: string)
    ensures |r| <= |s|
    decreases |s|
  {
    var t := Skip(s);
    if t != [] && t[0] == '#' then SkipComments(NextLine(t)) else t
  }

  function ReadFile(s: string): Option<seq<Block>>
    decreases |s|
  {
    var t := SkipComments(s);
    if t == [] then Some([])
    else
      var b := ReadBlock(t);
      if b.None? then None
      else
        var more := ReadFile(b.value.1);
        if more.None? then None else Some([b.value.0] + more.value)
  }

  // ----- Round trip -----

  function Stripped(labels: seq<string>): seq<string> {
    seq(|labels|, i requires 0 <= i < |labels| => Strip(labels[i]))
  }

  /** What the text of a block stands for: labels and keys are stripped. */
  function SeenBlock(show: Show, b: Block): Block {
    Block(b.kind, Stripped(b.labels), SeenEntries(Hcl(show), Dict(b.attrs)))
  }

  function SeenBlocks(show: Show, blocks: seq<Block>): seq<Block> {
    seq(|blocks|, i requires 0 <= i < |blocks| => SeenBlock(show, blocks[i]))
  }

  /** The exporter's kinds are identifiers. */
  predicate NamedKinds(blocks: seq<Block>) { forall i :: 0 <= i < |blocks| ==> Identifier(blocks[i].kind) }

  lemma RegroupFour(a: string, b: string, c: string, d: string)
    ensures (a + (b + c)) + d == a + (b + (c + d))
  {
  }

  lemma BodyRoundTrip(show: Show, b: Block, indent: nat, rest: string)
    requires rest == [] || !NumberChar(rest[0])
    ensures Read(Body(show, b, indent) + rest) == Some((Dict(SeenEntries(Hcl(show), Dict(b.attrs))), rest))
  {
    var style, v := Hcl(show), Dict(b.attrs);
    var entries := Entries(style, v, 0, indent);
    RegroupFour("{", entries, "}", rest);
    if b.attrs == [] {
      EntriesEnd(style, v, indent, rest);
      ReadsDict(entries + ("}" + rest));
      assert SeenEntries(style, v) == [];
      hide *;
    } else {
      BodyIsPrint(show, b, indent);
      PrintRoundTrip(style, v, indent, rest);
      SeenBrackets(style, v);
      hide *;
    }
  }

  lemma BodyIsPrint(show: Show, b: Block, indent: nat)
    requires b.attrs != []
    ensures Print(Hcl(show), Dict(b.attrs), indent) == Body(show, b, indent)
  {
    hide Entries;
    var entries := Entries(Hcl(show), Dict(b.attrs), 0, indent);
    assert "{" + entries + "}" == "{" + (entries + "}");
  }

  lemma NoLabels(body: string)
    requires body != [] && body[0] == '{'
    ensures ReadLabels(" " + body) == Some(([], body))
  {
    SkipSeparators(" ", body);
  }

  lemma LabelStep(name: string, more: string, names: seq<string>, body: string)
    requires ReadLabels(more) == Some((names, body))
    ensures ReadLabels(" " + (Quote(name) + more)) == Some(([name] + names, body))
  {
    SkipSeparators(" ", Quote(name) + more);
    StringRoundTrip(name, more);
    assert (Quote(name) + more)[0] == '\"';
    hide Quote, ReadString, Skip;
  }

  lemma {:induction false} LabelsRoundTrip(labels: seq<string>, body: string)
    requires body != [] && body[0] == '{'
    ensures ReadLabels(LabelsText(labels) + (" " + body))
         == Some((Stripped(labels), body))
  {
    hide Quote, Strip, ReadLabels;
    var seen := Stripped(labels);
    if labels == [] {
      assert LabelsText(labels) + (" " + body) == " " + body;
      NoLabels(body);
      assert seen == [];
    } else {
      var name, rest := Strip(labels[0]), labels[1..];
      var names := Stripped(rest);
      LabelsRoundTrip(rest, body);
      LabelStep(name, LabelsText(rest) + (" " + body), names, body);
      RegroupFour(" ", Quote(name), LabelsText(rest), " " + body);
      assert LabelsText(labels) == " " + (Quote(name) + LabelsText(rest));
      assert seen == [name] + names;
    }
  }

  lemma KindRoundTrip(kind: string, indent: nat, rest: string)
    requires Identifier(kind) && rest != [] && rest[0] == ' '
    ensures TakeIdent(Skip(Pad(indent) + (kind + rest))) == (kind, rest)
    ensures Skip(Pad(indent) + (kind + rest)) == kind + rest
  {
    assert Separators(Pad(indent)) && (kind + rest)[0] == kind[0] && !Separator(kind[0]);
    SkipSeparators(Pad(indent), kind + rest);
    TakeIdentOf(kind, rest);
  }

  lemma TextOfBlock(show: Show, b: Block, indent: nat, rest: string)
    ensures BlockText(show, b, indent) + rest
         == Pad(indent) + (b.kind + (LabelsText(b.labels) + (" " + (Body(show, b, indent) + rest))))
  {
    hide Body, LabelsText, Pad;
    var labels, body := LabelsText(b.labels), Body(show, b, indent);
    RegroupFour(labels, " ", body, rest);
    RegroupFour(Pad(indent), b.kind, labels + (" " + body), rest);
  }

  /** Every block is read back as what its text stands for, at any indent and whatever follows but a number. */
  lemma {:induction false} BlockRoundTrip(show: Show, b: Block, indent: nat, rest: string)
    requires Identifier(b.kind) && (rest == [] || !NumberChar(rest[0]))
    ensures ReadBlock(BlockText(show, b, indent) + rest) == Some((SeenBlock(show, b), rest))
  {
    var body := Body(show, b, indent) + rest;
    var labelled := LabelsText(b.labels) + (" " + body);
    TextOfBlock(show, b, indent, rest);
    assert labelled[0] == ' ';
    hide Body, LabelsText, BlockText, Quote, Pad, Skip, TakeIdent, Read, ReadLabels, SeenEntries;
    KindRoundTrip(b.kind, indent, labelled);
    LabelsRoundTrip(b.labels, body);
    BodyRoundTrip(show, b, indent, rest);
  }

  /** A block text at the left margin is neither blank nor a comment. */
  lemma BlockIsNoComment(show: Show, b: Block, rest: string)
    requires Identifier(b.kind)
    ensures var s := BlockText(show, b, 0) + rest; SkipComments(s) == s && s != []
  {
    var labelled := LabelsText(b.labels) + (" " + (Body(show, b, 0) + rest));
    TextOfBlock(show, b, 0, rest);
    assert labelled[0] == ' ';
    hide BlockText, LabelsText, Body;
    KindRoundTrip(b.kind, 0, labelled);
    var s := BlockText(show, b, 0) + rest;
    assert Pad(0) == [];
    assert s == Pad(0) + (b.kind + labelled) == b.kind + labelled;
    assert s[0] == b.kind[0] && IdentStart(s[0]);
    assert Skip(s) == s && s[0] != '#';
  }

  lemma {:induction false} BlocksRoundTrip(show: Show, blocks: seq<Block>)
    requires NamedKinds(blocks)
    ensures ReadFile(BlocksText(show, blocks)) == Some(SeenBlocks(show, blocks))
  {
    if blocks == [] {
      assert SeenBlocks(show, blocks) == [];
    } else {
      var b, more := blocks[0], blocks[1..];
      assert Identifier(b.kind) && NamedKinds(more);
      SeenBlocksStep(show, blocks);
      assert BlocksText(show, blocks) == BlockText(show, b, 0) + Continued(show, more);
      assert Continued(show, more)[0] == '\n';
      hide *;
      BlocksRoundTrip(show, more);
      ContinuedReads(show, more);
      FileStep(show, b, Continued(show, more), SeenBlocks(show, more));
    }
  }

  lemma SeenBlocksStep(show: Show, blocks: seq<Block>)
    requires blocks != []
    ensures SeenBlocks(show, blocks) == [SeenBlock(show, blocks[0])] + SeenBlocks(show, blocks[1..])
  {
    hide SeenBlock;
  }

  lemma ContinuedReads(show: Show, more: seq<Block>)
    requires ReadFile(BlocksText(show, more)) == Some(SeenBlocks(show, more))
    ensures ReadFile(Continued(show, more)) == Some(SeenBlocks(show, more))
  {
    if more == [] {
      BlankLine([]);
      assert "\n" + [] == "\n";
    } else {
      TwoBlankLines(BlocksText(show, more));
    }
  }

  lemma TwoBlankLines(text: string)
    ensures ReadFile("\n\n" + text) == ReadFile(text)
  {
    hide ReadFile;
    BlankLine(text);
    BlankLine("\n" + text);
    assert "\n" + ("\n" + text) == "\n\n" + text;
  }

  lemma FileStep(show: Show, b: Block, rest: string, more: seq<Block>)
    requires Identifier(b.kind) && rest != [] && rest[0] == '\n' && ReadFile(rest) == Some(more)
    ensures ReadFile(BlockText(show, b, 0) + rest) == Some([SeenBlock(show, b)] + more)
  {
    BlockRoundTrip(show, b, 0, rest);
    BlockIsNoComment(show, b, rest);
    hide BlockText, ReadBlock, SkipComments, SeenBlock;
  }

  /** A leading line end makes no difference to the reader. */
  lemma BlankLine(s: string)
    ensures ReadFile("\n" + s) == ReadFile(s)
  {
    assert ("\n" + s)[1..] == s;
    assert Skip("\n" + s) == Skip(s);
    assert SkipComments("\n" + s) == SkipComments(s);
  }

  predicate CommentLine(s: string) {
    |s| >= 2 && s[0] == '#' && s[|s| - 1] == '\n' && forall i :: 0 <= i < |s| - 1 ==> s[i] != '\n'
  }

  lemma {:induction false} LineDrops(line: string, rest: string)
    requires line != [] && line[|line| - 1] == '\n' && forall i :: 0 <= i < |line| - 1 ==> line[i] != '\n'
    ensures NextLine(line + rest) == rest
    decreases |line|
  {
    if |line| == 1 {
      assert (line + rest)[1..] == rest;
    } else {
      assert (line + rest)[1..] == line[1..] + rest;
      LineDrops(line[1..], rest);
    }
  }

  lemma CommentDrops(comment: string, rest: string)
    requires CommentLine(comment)
    ensures ReadFile(comment + rest) == ReadFile(rest)
  {
    LineDrops(comment, rest);
    var s := comment + rest;
    assert s[0] == '#' && Skip(s) == s;
    assert SkipComments(s) == SkipComments(rest);
  }

  /** The main theorem: a whole file is read back as what its blocks stand for, in order. */
  lemma {:induction false} FileRoundTrip(show: Show, header: string, blocks: seq<Block>, note: string)
    requires NamedKinds(blocks) && CommentLine(header) && CommentLine(note)
    ensures ReadFile(FileText(show, header, blocks, note)) == Some(SeenBlocks(show, blocks))
  {
    var body := if blocks == [] then note else BlocksText(show, blocks);
    CommentDrops(header, "\n" + body);
    BlankLine(body);
    if blocks == [] {
      CommentDrops(note, []);
      assert note + [] == note;
      assert SeenBlocks(show, blocks) == [];
    } else {
      BlocksRoundTrip(show, blocks);
    }
  }

  /** Stripped labels and keys, and no value that is written through `str`. */
  predicate Writable(show: Show, b: Block) {
    && (forall i :: 0 <= i < |b.labels| ==> Strip(b.labels[i]) == b.labels[i])
    && Printable(Hcl(show), Dict(b.attrs))
  }

  lemma SeenBlockIff(show: Show, b: Block)
    ensures SeenBlock(show, b) == b <==> Writable(show, b)
  {
    SeenIff(Hcl(show), Dict(b.attrs));
    SeenBrackets(Hcl(show), Dict(b.attrs));
    hide Seen, SeenEntries, Printable, Strip;
    var labels := SeenBlock(show, b).labels;
    if forall i :: 0 <= i < |b.labels| ==> Strip(b.labels[i]) == b.labels[i] {
      assert labels == b.labels;
    } else {
      var i :| 0 <= i < |b.labels| && Strip(b.labels[i]) != b.labels[i];
      assert labels[i] != b.labels[i];
    }
  }

  /** The exact condition under which a file gives its blocks back. */
  lemma {:induction false} FileRoundTripIff(show: Show, header: string, blocks: seq<Block>, note: string)
    requires NamedKinds(blocks) && CommentLine(header) && CommentLine(note)
    ensures ReadFile(FileText(show, header, blocks, note)) == Some(blocks) <==>
            forall i :: 0 <= i < |blocks| ==> Writable(show, blocks[i])
  {
    FileRoundTrip(show, header, blocks, note);
    var seen := SeenBlocks(show, blocks);
    forall i | 0 <= i < |blocks| ensures seen[i] == blocks[i] <==> Writable(show, blocks[i]) {
      SeenBlockIff(show, blocks[i]);
    }
    hide ReadFile, FileText, SeenBlock, Writable;
    if forall i :: 0 <= i < |blocks| ==> Writable(show, blocks[i]) {
      assert seen == blocks;
    }
  }
}
