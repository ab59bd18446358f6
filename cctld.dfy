/**
 * make_cctld_list.py: keep the lines of all-domains.txt whose last
 * dot-label is exactly two characters long, and write them one per line to
 * just-cctld-domains.txt.
 */
module Cctld {
  import opened PyStr
  import opened LineFiles

  /** Lines 39-40: `len(this_line.split(".")[-1]) == 2`. */
  predicate IsCctldLine(line: string)
  {
    |LastLabel(line)| == 2
  }

  /**
   * The same test read off the characters: the line ends in two characters
   * other than '.', and those are the whole line or follow a '.'.
   */
  lemma CctldLineShape(line: string)
    ensures IsCctldLine(line) <==>
      && |line| >= 2
      && line[|line| - 1] != '.' && line[|line| - 2] != '.'
      && (|line| == 2 || line[|line| - 3] == '.')
  {
    if IsCctldLine(line) {
      CctldLineEnds(line);
    }
    if && |line| >= 2
       && line[|line| - 1] != '.' && line[|line| - 2] != '.'
       && (|line| == 2 || line[|line| - 3] == '.')
    {
      CctldLineFromEnds(line);
    }
  }

  /** A kept line ends in its two-character label, after a '.' or at the start. */
  lemma CctldLineEnds(line: string)
    requires IsCctldLine(line)
    ensures |line| >= 2 && line[|line| - 1] != '.' && line[|line| - 2] != '.'
    ensures |line| == 2 || line[|line| - 3] == '.'
  {
    var t := LastLabel(line);
    AfterLastShape(line, '.');
    assert t == line[|line| - 2..];
    assert line[|line| - 1] == t[1] && line[|line| - 2] == t[0];
  }

  /** Two non-'.' characters at the start or after a '.' make a kept line. */
  lemma CctldLineFromEnds(line: string)
    requires |line| >= 2 && line[|line| - 1] != '.' && line[|line| - 2] != '.'
    requires |line| == 2 || line[|line| - 3] == '.'
    ensures IsCctldLine(line)
  {
    var b := line[|line| - 2..];
    assert b == [line[|line| - 2], line[|line| - 1]];
    if |line| == 2 {
      assert b == line;
      AfterLastShape(line, '.');
    } else {
      var a := line[..|line| - 3];
      assert line == a + ['.'] + b;
      AfterLastOf(a, '.', b);
    }
  }

  /** The set lines 37-41 build from the lines of the input file. */
  function CctldsOf(lines: seq<string>): set<string>
  {
    set i | 0 <= i < |lines| && IsCctldLine(lines[i]) :: lines[i]
  }

  /**
   * Soundness and completeness: a name is saved exactly when it is one of
   * the input lines and its last dot-label has two characters.
   */
  lemma CctldsExactly(lines: seq<string>, x: string)
    ensures x in CctldsOf(lines) <==> x in lines && IsCctldLine(x)
  {
    if x in lines && IsCctldLine(x) {
      var i :| 0 <= i < |lines| && lines[i] == x;
      assert x == lines[i];
    }
  }

  /** Lines 37-41: the filter loop over the lines of the file, adding each kept line to the set. */
  method JustCctlds(content: string) returns (justCctlds: set<string>)
    ensures justCctlds == CctldsOf(SplitLines(content))
  {
    var lines := SplitLines(content);
    justCctlds := {};
    var i := 0;
    while i < |lines|
      invariant 0 <= i <= |lines|
      invariant justCctlds == CctldsOf(lines[..i])
    {
      var thisLine := lines[i];
      CctldsSnoc(lines, i);
      if |LastLabel(thisLine)| == 2 {
        justCctlds := justCctlds + {thisLine};
      }
      i := i + 1;
    }
    assert lines[..i] == lines;
  }

  /** One more line: the set grows by that line exactly when it is kept. */
  lemma CctldsSnoc(lines: seq<string>, i: nat)
    requires i < |lines|
    ensures CctldsOf(lines[..i + 1]) == CctldsOf(lines[..i]) + (if IsCctldLine(lines[i]) then {lines[i]} else {})
  {
    var prefix := lines[..i + 1];
    assert forall k :: 0 <= k < i ==> prefix[k] == lines[..i][k];
    assert prefix[i] == lines[i];
  }

  /**
   * Lines 37-47: filter the file, then write the set one name per line in
   * some order. The file lists each kept name once.
   */
  method MakeCctldList(content: string) returns (justCctlds: set<string>, order: seq<string>, text: string)
    ensures justCctlds == CctldsOf(SplitLines(content))
    ensures forall x :: x in order <==> x in justCctlds
    ensures forall i, j :: 0 <= i < j < |order| ==> order[i] != order[j]
    ensures SplitLines(text) == order
  {
    justCctlds := JustCctlds(content);
    forall x | x in justCctlds
      ensures NoBreaks(x)
    {
      CctldsExactly(SplitLines(content), x);
    }
    order, text := WriteLines(justCctlds);
  }

  /**
   * The saved file is a fixpoint: filtering it again, in whatever order its
   * names were written, gives back the same set.
   */
  lemma RefilterSame(content: string, order: seq<string>)
    requires forall x :: x in order <==> x in CctldsOf(SplitLines(content))
    ensures CctldsOf(SplitLines(JoinLines(order))) == CctldsOf(SplitLines(content))
  {
    var lines := SplitLines(content);
    forall i | 0 <= i < |order|
      ensures NoBreaks(order[i])
    {
      CctldsExactly(lines, order[i]);
    }
    SplitJoin(order);
    forall x
      ensures x in CctldsOf(order) <==> x in CctldsOf(lines)
    {
      CctldsExactly(order, x);
      CctldsExactly(lines, x);
    }
  }

  /** A line without '.' is judged as a whole: "de" is kept. */
  lemma ExampleDe()
    ensures IsCctldLine("de")
  {
    CctldLineShape("de");
  }

  /** "com" has no '.' and three characters: not kept. */
  lemma ExampleCom()
    ensures !IsCctldLine("com")
  {
    CctldLineShape("com");
    assert "com"[0] == 'c';
  }

  /** The empty line: not kept. */
  lemma ExampleEmpty()
    ensures !IsCctldLine("")
  {
    CctldLineShape("");
  }

  /** "bbc.co.uk" ends in a two-letter label: kept. */
  lemma ExampleCoUk()
    ensures IsCctldLine("bbc.co.uk")
  {
    CctldLineShape("bbc.co.uk");
    assert "bbc.co.uk"[6] == '.';
  }

  /** "example.com." has an empty last label: not kept. */
  lemma ExampleTrailingDot()
    ensures !IsCctldLine("example.com.")
  {
    CctldLineShape("example.com.");
  }
}
