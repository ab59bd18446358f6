/**
 * Line-delimited text files: `str.splitlines()` as the scripts read them, and
 * the `for x in some_set: f.write(f"{x}\n")` loops that write them.
 */
module LineFiles {

  /**
   * The characters at which `str.splitlines()` ends a line: \n, \r, \v, \f,
   * \x1c, \x1d, \x1e, \x85, U+2028 and U+2029 (\r\n counts as one break).
   */
  predicate IsLineBreak(c: char)
  {
    c as int in {10, 11, 12, 13, 28, 29, 30, 133, 0x2028, 0x2029}
  }

  /** A line as `splitlines()` returns it: no break character inside. */
  predicate NoBreaks(line: string)
  {
    forall i :: 0 <= i < |line| ==> !IsLineBreak(line[i])
  }

  /** Index of the first break character of `s`, or `|s|` if there is none. */
  function FirstBreak(s: string): (k: nat)
    ensures k <= |s|
    ensures k < |s| ==> IsLineBreak(s[k])
    ensures forall j :: 0 <= j < k ==> !IsLineBreak(s[j])
  {
    if s == [] || IsLineBreak(s[0]) then 0 else 1 + FirstBreak(s[1..])
  }

  /**
   * `s.splitlines()`: the pieces between breaks; a final piece is kept only
   * when it is non-empty, so "a\n" gives ["a"] and "" gives [].
   */
  function SplitLines(s: string): (lines: seq<string>)
    ensures forall i :: 0 <= i < |lines| ==> NoBreaks(lines[i])
    decreases |s|
  {
    if s == [] then []
    else
      var k := FirstBreak(s);
      if k == |s| then [s]
      else
        var width := if s[k] == '\r' && k + 1 < |s| && s[k + 1] == '\n' then 2 else 1;
        [s[..k]] + SplitLines(s[k + width..])
  }

  /** The text of a file holding `lines`, each followed by "\n". */
  function JoinLines(lines: seq<string>): string
  {
    if lines == [] then "" else lines[0] + "\n" + JoinLines(lines[1..])
  }

  lemma {:induction false} JoinLinesSnoc(lines: seq<string>, line: string)
    ensures JoinLines(lines + [line]) == JoinLines(lines) + line + "\n"
  {
    if lines != [] {
      assert (lines + [line])[1..] == lines[1..] + [line];
      JoinLinesSnoc(lines[1..], line);
    }
  }

  /** Reading back a written file gives the lines written, in order. */
  lemma {:induction false} SplitJoin(lines: seq<string>)
    requires forall i :: 0 <= i < |lines| ==> NoBreaks(lines[i])
    ensures SplitLines(JoinLines(lines)) == lines
  {
    if lines != [] {
      var s := JoinLines(lines);
      var head := lines[0];
      assert s == head + "\n" + JoinLines(lines[1..]);
      assert s[|head|] == '\n';
      assert forall j :: 0 <= j < |head| ==> s[j] == head[j];
      var k := FirstBreak(s);
      assert k == |head|;
      assert s[..k] == head;
      assert s[k + 1..] == JoinLines(lines[1..]);
      SplitJoin(lines[1..]);
    }
  }

  /**
   * Writes every element of `items`, one per line, in the set's iteration
   * order (which Python leaves unspecified: `order` is that order).
   */
  method WriteLines(items: set<string>) returns (order: seq<string>, text: string)
    ensures forall x :: x in order <==> x in items
    ensures forall i, j :: 0 <= i < j < |order| ==> order[i] != order[j]
    ensures text == JoinLines(order)
    ensures (forall x :: x in items ==> NoBreaks(x)) ==> SplitLines(text) == order
  {
    order, text := [], "";
    var remaining := items;
    while remaining != {}
      invariant forall x :: x in items <==> x in order || x in remaining
      invariant forall x :: x in order ==> x !in remaining
      invariant forall i, j :: 0 <= i < j < |order| ==> order[i] != order[j]
      invariant text == JoinLines(order)
      decreases |remaining|
    {
      var x :| x in remaining;
      JoinLinesSnoc(order, x);
      order := order + [x];
      text := text + x + "\n";
      remaining := remaining - {x};
    }
    if forall x :: x in items ==> NoBreaks(x) {
      SplitJoin(order);
    }
  }
}
