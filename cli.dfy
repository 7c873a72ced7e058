/** The command-line front end: parsing of the comma-separated column options. */
module Cli {
  import opened Wrappers
  import opened Text

  /**
   * `_split_columns`: no option, or one that is blank after stripping, gives None;
   * otherwise the stripped, non-blank comma-separated names in their original order.
   */
  function SplitColumns(arg: Option<string>): (r: Option<seq<string>>)
    ensures arg.None? || Strip(arg.value) == [] ==> r.None?
    ensures arg.Some? && Strip(arg.value) != [] ==> r == Some(CommaList(arg.value))
    ensures r.Some? ==> forall i :: 0 <= i < |r.value| ==> Tidy(r.value[i]) && ',' !in r.value[i]
  {
    if arg.None? || Strip(arg.value) == [] then None
    else Some(CommaList(arg.value))
  }

  /** A non-blank option made only of commas and whitespace gives an empty list, not None. */
  lemma SeparatorsOnlyGiveEmptyList(s: string)
    requires ',' in s
    requires forall c :: c in s ==> c == ',' || IsSpace(c)
    ensures SplitColumns(Some(s)) == Some([])
  {
    if Strip(s) == [] {
      BlankOfStrip(s);
    }
    CommaListOfSeparators(s);
  }

  /** Names written back as a comma list are read back unchanged and in order. */
  lemma SplitColumnsOfJoin(names: seq<string>)
    requires names != []
    requires forall i :: 0 <= i < |names| ==> names[i] != [] && ',' !in names[i]
    requires forall i :: 0 <= i < |names| ==> !IsSpace(names[i][0]) && !IsSpace(names[i][|names[i]| - 1])
    ensures SplitColumns(Some(Join(names, ','))) == Some(names)
  {
    CommaListOfJoin(names);
    if Strip(Join(names, ',')) == [] {
      BlankOfStrip(Join(names, ','));
      JoinHasFirst(names, ',');
    }
  }
}
