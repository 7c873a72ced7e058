/**
 * The example-notebook generator: splitting a code block into notebook source lines and
 * the notebook record (format 4.5) holding a title cell and one code cell.
 */
module Notebooks {
  import opened Wrappers
  import opened Text

  predicate IsNewline(c: char)
  {
    c == '\n'
  }

  /** `block.strip("\n")`. */
  function StripNewlines(block: string): string
  {
    StripBy(block, IsNewline)
  }

  /**
   * `to_lines`: the block without its leading and trailing newlines, split at every
   * newline, each piece given back its newline.
   */
  function ToLines(block: string): (r: seq<string>)
    ensures |r| == Count(StripNewlines(block), '\n') + 1
    ensures forall i :: 0 <= i < |r| ==>
      |r[i]| >= 1 && r[i][|r[i]| - 1] == '\n' && '\n' !in r[i][..|r[i]| - 1]
  {
    var pieces := Split(StripNewlines(block), '\n');
    var r := seq(|pieces|, i requires 0 <= i < |pieces| => pieces[i] + "\n");
    assert forall i :: 0 <= i < |r| ==> r[i][..|r[i]| - 1] == pieces[i];
    r
  }

  /** The concatenation of a list of strings, `"".join(lines)`. */
  function Concat(lines: seq<string>): string
  {
    if lines == [] then "" else lines[0] + Concat(lines[1..])
  }

  /** Giving each piece back its newline and concatenating is joining with newlines plus one. */
  lemma {:induction false} ConcatTerminated(pieces: seq<string>)
    requires pieces != []
    ensures Concat(seq(|pieces|, i requires 0 <= i < |pieces| => pieces[i] + "\n"))
      == Join(pieces, '\n') + "\n"
  {
    var lines := seq(|pieces|, i requires 0 <= i < |pieces| => pieces[i] + "\n");
    if |pieces| > 1 {
      var rest := pieces[1..];
      ConcatTerminated(rest);
      assert lines[1..] == seq(|rest|, i requires 0 <= i < |rest| => rest[i] + "\n");
    }
  }

  /** The lines concatenate back to the stripped block followed by exactly one newline. */
  lemma ToLinesConcat(block: string)
    ensures Concat(ToLines(block)) == StripNewlines(block) + "\n"
  {
    var pieces := Split(StripNewlines(block), '\n');
    ConcatTerminated(pieces);
    JoinSplit(StripNewlines(block), '\n');
  }

  /** Stripping newlines empties exactly the blocks made of newlines only. */
  lemma StripNewlinesEmpty(block: string)
    ensures StripNewlines(block) == [] <==> forall i :: 0 <= i < |block| ==> block[i] == '\n'
  {
    var s := StripNewlines(block);
    var k := |block| - |TrimStart(block, IsNewline)|;
    if s != [] {
      assert s[0] == block[k] && block[k] != '\n';
    }
  }

  /** A block of newlines only (or an empty one) becomes the single line "\n", and only such a block. */
  lemma ToLinesOfBlank(block: string)
    ensures ToLines(block) == ["\n"] <==> forall i :: 0 <= i < |block| ==> block[i] == '\n'
  {
    StripNewlinesEmpty(block);
    ToLinesConcat(block);
    if ToLines(block) == ["\n"] {
      assert Concat(["\n"]) == "\n";
    }
    if StripNewlines(block) == [] {
      assert Split([], '\n') == [""];
    }
  }

  /** Notebook cells; the metadata of both kinds is empty and carries no field here. */
  datatype Cell =
    | Markdown(source: seq<string>)
    | Code(executionCount: Option<nat>, outputs: seq<string>, source: seq<string>)

  datatype KernelSpec = KernelSpec(displayName: string, language: string, name: string)

  datatype LanguageInfo = LanguageInfo(name: string, version: string)

  datatype Notebook = Notebook(
    cells: seq<Cell>,
    kernelspec: KernelSpec,
    languageInfo: LanguageInfo,
    nbformat: nat,
    nbformatMinor: nat)

  /**
   * The record `write_notebook` serialises: a markdown heading with the title, then one code
   * cell holding the lines, never executed and without outputs, for a Python 3.11 kernel.
   */
  function WriteNotebook(title: string, lines: seq<string>): (n: Notebook)
    ensures |n.cells| == 2 && n.cells[0].Markdown? && n.cells[1].Code?
    ensures n.cells[1].source == lines && n.cells[1].outputs == [] && n.cells[1].executionCount == None
    ensures |n.cells[0].source| == 1 && n.cells[0].source[0] == "# " + title + "\n"
    ensures n.nbformat == 4 && n.nbformatMinor == 5
    ensures n.kernelspec.name == "python3" && n.languageInfo.name == "python"
  {
    Notebook(
      [Markdown(["# " + title + "\n"]), Code(None, [], lines)],
      KernelSpec("Python 3", "python", "python3"),
      LanguageInfo("python", "3.11"),
      4, 5)
  }

  /** The heading line of a notebook's first cell, without its "# " and its newline. */
  function HeadingTitle(n: Notebook): Option<string>
  {
    if |n.cells| > 0 && n.cells[0].Markdown? && |n.cells[0].source| == 1 then
      var h := n.cells[0].source[0];
      if |h| >= 3 && h[..2] == "# " && h[|h| - 1] == '\n' then Some(h[2..|h| - 1]) else None
    else None
  }

  /**
   * A notebook written from a code block gives back its title from the heading, and its
   * code cell reads as the stripped block ending in one newline, one line per cell entry.
   */
  lemma NotebookOfBlock(title: string, block: string)
    ensures var n := WriteNotebook(title, ToLines(block));
      && HeadingTitle(n) == Some(title)
      && Concat(n.cells[1].source) == StripNewlines(block) + "\n"
      && |n.cells[1].source| == Count(StripNewlines(block), '\n') + 1
  {
    var h := "# " + title + "\n";
    assert h[..2] == "# " && h[2..|h| - 1] == title;
    ToLinesConcat(block);
  }
}
