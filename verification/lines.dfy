/**
 * Messages built line by line, each line followed by a newline
 * (`content += "...\n"`), and the inverse split.
 */
module Lines {

  /** The message text: every line followed by `"\n"`. */
  function Text(lines: seq<string>): (s: string)
    ensures |s| >= |lines|
  {
    if lines == [] then "" else lines[0] + "\n" + Text(lines[1..])
  }

  /** The length of the first line of `s`: the index of its first newline, or `|s|`. */
  function LineEnd(s: string): (i: nat)
    ensures i <= |s|
    ensures forall j :: 0 <= j < i ==> s[j] != '\n'
    ensures i < |s| ==> s[i] == '\n'
  {
    if s == [] || s[0] == '\n' then 0 else 1 + LineEnd(s[1..])
  }

  /** Splits a text at its newlines; a final piece without newline is a line too. */
  function SplitLines(s: string): (lines: seq<string>)
    decreases |s|
  {
    if s == [] then []
    else
      var i := LineEnd(s);
      if i == |s| then [s] else [s[..i]] + SplitLines(s[i + 1..])
  }

  predicate NoNewline(l: string)
  {
    forall j :: 0 <= j < |l| ==> l[j] != '\n'
  }

  /** A text built from newline-free lines splits back into exactly those lines. */
  lemma {:induction false} SplitText(lines: seq<string>)
    requires forall k :: 0 <= k < |lines| ==> NoNewline(lines[k])
    ensures SplitLines(Text(lines)) == lines
  {
    if lines != [] {
      var l := lines[0];
      var rest := Text(lines[1..]);
      var s := Text(lines);
      assert s == l + "\n" + rest;
      assert s[|l|] == '\n';
      var i := LineEnd(s);
      assert forall j :: 0 <= j < |l| ==> s[j] == l[j];
      assert i == |l|;
      assert s[..i] == l;
      assert s[i + 1..] == rest;
      SplitText(lines[1..]);
    }
  }
}
