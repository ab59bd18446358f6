/**
 * The external-links dump scanner of wiki_get_domains_from_databases.py:
 * `process_one_file` turns one decompressed MySQL dump of the `externallinks`
 * table into the set of host names its http/https links point at, and the
 * main block unions the per-wiki domain files.
 */
module Extractor {
  import opened Wrappers
  import opened PyStr
  import opened LineFiles

  /** The literal that a statement line must start with (35 characters). */
  const InsertPrefix: string := "INSERT INTO `externallinks` VALUES "
  /** Shorter lines are schema or comment lines and are not inspected. */
  const MinLineLength: nat := 1000
  /** Smaller archives are error pages saved under a .gz name. */
  const MinFileSize: nat := 500

  // ---------------------------------------------------------------- URL -> host

  /** URL remnants that the source rejects before looking at the scheme. */
  predicate JunkScheme(scheme: string)
  {
    StartsWith(scheme, "//") || '&' in scheme || '%' in scheme || '?' in scheme || ',' in scheme
  }

  /** The scheme is http or https in any letter case. */
  predicate IsWebScheme(scheme: string)
  {
    Lower(scheme) == "http" || Lower(scheme) == "https"
  }

  /** The text after at most one leading "//", up to the first "/". */
  function HostPart(rest: string): string
  {
    var r := if StartsWith(rest, "//") then rest[2..] else rest;
    var slash := Find(r, "/");
    if slash >= 0 then r[..slash] else r
  }

  /** The text before the first ":" (a port, if any, removed). */
  function StripPort(host: string): string
  {
    var colon := Find(host, ":");
    if colon >= 0 then host[..colon] else host
  }

  predicate IsDomainChar(c: char)
  {
    'a' <= c <= 'z' || '0' <= c <= '9' || c == '.'
  }

  /**
   * The names the filter chain lets through: over [a-z0-9.], non-empty, not
   * starting with "." or containing "..", and whose last label is not a
   * decimal number.
   */
  predicate IsDomainName(d: string)
  {
    && d != ""
    && (forall i :: 0 <= i < |d| ==> IsDomainChar(d[i]))
    && d[0] != '.'
    && !Contains(d, "..")
    && !IsDigits(LastLabel(d))
  }

  /**
   * The domain a URL contributes: the scheme (the text before the first
   * ":") must be http/https; the host is HostPart of the rest, which must
   * contain a "."; the result is that host lowercased and port-stripped,
   * when it is a domain name.
   */
  function UrlDomain(url: string): Option<string>
  {
    match SplitFirst(url, ":")
    case None => None
    case Some((scheme, rest)) =>
      var host := HostPart(rest);
      var d := StripPort(Lower(host));
      if IsWebScheme(scheme) && '.' in host && IsDomainName(d) then Some(d) else None
  }

  /** Every scheme that passes the http/https test passes the junk prefilter too. */
  lemma PrefilterSubsumed(scheme: string)
    ensures IsWebScheme(scheme) ==> !JunkScheme(scheme)
  {
    if IsWebScheme(scheme) {
      forall i | 0 <= i < |scheme|
        ensures scheme[i] !in "/&%?,"
      {
        assert Lower(scheme)[i] == LowerChar(scheme[i]);
      }
      assert |scheme| >= 2 ==> scheme[..2][0] == scheme[0];
    }
  }

  /** Lines 62-103: the filter chain, step by step, in the source's order. */
  method DomainOfUrl(url: string) returns (domain: Option<string>)
    ensures domain == UrlDomain(url)
  {
    var colon := Find(url, ":");
    if colon < 0 {
      return None;
    }
    var scheme, rest := url[..colon], url[colon + 1..];
    ghost var host := HostPart(rest);
    assert UrlDomain(url) == if IsWebScheme(scheme) && '.' in host && IsDomainName(StripPort(Lower(host)))
      then Some(StripPort(Lower(host))) else None;
    PrefilterSubsumed(scheme);
    if JunkScheme(scheme) {
      return None;
    }
    var lowered := Lower(scheme);
    if lowered != "http" && lowered != "https" {
      return None;
    }
    if StartsWith(rest, "//") {
      rest := rest[2..];
    }
    var domainName := rest;
    var slash := Find(rest, "/");
    if slash >= 0 {
      domainName := rest[..slash];
    }
    assert domainName == host;
    if '.' !in domainName {
      return None;
    }
    domainName := Lower(domainName);
    ContainsChar(domainName, ':');
    if ':' in domainName {
      domainName := domainName[..Find(domainName, ":")];
    }
    assert domainName == StripPort(Lower(host));
    domain := Filter(domainName);
  }

  /** Lines 89-105: the checks on the lowercased, port-stripped host. */
  method Filter(domainName: string) returns (domain: Option<string>)
    ensures domain == if IsDomainName(domainName) then Some(domainName) else None
  {
    if exists i :: 0 <= i < |domainName| && !IsDomainChar(domainName[i]) {
      return None;
    }
    if IsDigits(LastLabel(domainName)) {
      return None;
    }
    if StartsWith(domainName, ".") {
      return None;
    }
    if Contains(domainName, "..") {
      return None;
    }
    if domainName == "" {
      return None;
    }
    assert domainName[..1][0] == domainName[0];
    domain := Some(domainName);
  }

  // ---------------------------------------------------------------- tuples

  /** `s[1:]`, which is "" for "". */
  function Drop1(s: string): string
  {
    if s == [] then [] else s[1..]
  }

  /**
   * Lines 54-56: the third field of a tuple (after its first two commas),
   * minus its first character (the opening quote), up to the first "','";
   * `None` where the unpacking raises.
   */
  function TupleUrl(t: string): Option<string>
  {
    match SplitFirst(t, ",")
    case None => None
    case Some((_, afterFirst)) =>
      match SplitFirst(afterFirst, ",")
      case None => None
      case Some((_, restOfTuple)) =>
        match SplitFirst(Drop1(restOfTuple), "','")
        case None => None
        case Some((savedUrl, _)) => Some(savedUrl)
  }

  /** The domain one tuple contributes, if any. */
  function TupleDomain(t: string): Option<string>
  {
    match TupleUrl(t)
    case None => None
    case Some(url) => UrlDomain(url)
  }

  /** The set holding the value of `o`, if any. */
  function Elements(o: Option<string>): set<string>
  {
    if o.Some? then {o.value} else {}
  }

  /** The values `f` yields on the elements of `xs`, each element on its own. */
  function Collect(xs: seq<string>, f: string -> Option<string>): set<string>
  {
    if xs == [] then {} else Collect(xs[..|xs| - 1], f) + Elements(f(xs[|xs| - 1]))
  }

  lemma CollectPrefix(xs: seq<string>, f: string -> Option<string>, j: nat)
    requires j < |xs|
    ensures Collect(xs[..j + 1], f) == Collect(xs[..j], f) + Elements(f(xs[j]))
  {
    assert xs[..j + 1][..j] == xs[..j];
  }

  /** A value is collected exactly when some element yields it; the others add nothing. */
  lemma {:induction false} CollectMembers(xs: seq<string>, f: string -> Option<string>, d: string)
    ensures d in Collect(xs, f) <==> exists j :: 0 <= j < |xs| && f(xs[j]) == Some(d)
  {
    if xs != [] {
      var init := xs[..|xs| - 1];
      CollectMembers(init, f, d);
      assert forall j :: 0 <= j < |init| ==> init[j] == xs[j];
    }
  }

  /** The domains the tuples of one statement contribute. */
  function TupleDomains(tuples: seq<string>): set<string>
  {
    Collect(tuples, TupleDomain)
  }

  // ---------------------------------------------------------------- lines and files

  datatype Abort = WrongPrefix | NoTerminator

  /** How the scanner treats one line of the dump. */
  datatype LineKind = Short | Malformed(why: Abort) | Statement(tuples: seq<string>)

  /** The statement body `line[36:-2]` split on "),(" (line 49-51). */
  function Tuples(line: string): seq<string>
    requires |line| >= MinLineLength
  {
    Split(line[36..|line| - 2], "),(")
  }

  /** Lines 41-51. */
  function Classify(line: string): LineKind
  {
    if |line| < MinLineLength then Short
    else if line[..35] != InsertPrefix then Malformed(WrongPrefix)
    else if !EndsWith(line, ";\n") then Malformed(NoTerminator)
    else Statement(Tuples(line))
  }

  /** The state of the scan after some lines: still collecting, or stopped at a bad line. */
  datatype Scan = Collecting(domains: set<string>) | Stopped(line: nat, why: Abort)

  /**
   * The scan after one more line, the `index`-th of the file, of kind
   * `kind`; `gather` gives the domains of a statement line's tuples.
   */
  function Step(prior: Scan, index: nat, kind: LineKind, gather: seq<string> -> set<string>): Scan
  {
    if prior.Stopped? then prior
    else
      match kind
      case Short => prior
      case Malformed(why) => Stopped(index, why)
      case Statement(tuples) => Collecting(prior.domains + gather(tuples))
  }

  /** The scan of `lines`, each line judged by `classify`. */
  function ScanWith(lines: seq<string>, classify: string -> LineKind, gather: seq<string> -> set<string>): Scan
  {
    if lines == [] then Collecting({})
    else Step(ScanWith(lines[..|lines| - 1], classify, gather), |lines| - 1, classify(lines[|lines| - 1]), gather)
  }

  /** Lines 39-105: the scan of a whole file. */
  function ScanLines(lines: seq<string>): Scan
  {
    ScanWith(lines, Classify, TupleDomains)
  }

  lemma ScanPrefix(lines: seq<string>, i: nat)
    requires i < |lines|
    ensures ScanLines(lines[..i + 1]) == Step(ScanLines(lines[..i]), i, Classify(lines[i]), TupleDomains)
  {
    assert lines[..i + 1][..i] == lines[..i];
  }

  /** What `process_one_file` leaves behind for one archive. */
  datatype FileOutcome =
    | TooSmall                        // under 500 bytes: nothing written
    | UnzipFailed                     // gunzip failed: nothing written
    | Aborted(line: nat, why: Abort)  // a bad long line: nothing written
    | Written(domains: set<string>)   // the domain file holds exactly these

  function ExtractFile(fileSize: nat, lines: Option<seq<string>>): FileOutcome
  {
    if fileSize < MinFileSize then TooSmall
    else if lines.None? then UnzipFailed
    else
      match ScanLines(lines.value)
      case Stopped(i, why) => Aborted(i, why)
      case Collecting(ds) => Written(ds)
  }

  /** Once stopped, the scan ignores every later line. */
  lemma {:induction false} StoppedStays(
    lines: seq<string>, more: seq<string>, classify: string -> LineKind, gather: seq<string> -> set<string>)
    requires ScanWith(lines, classify, gather).Stopped?
    ensures ScanWith(lines + more, classify, gather) == ScanWith(lines, classify, gather)
    decreases |more|
  {
    if more != [] {
      var init := more[..|more| - 1];
      var all := lines + more;
      assert all[..|all| - 1] == lines + init;
      StoppedStays(lines, init, classify, gather);
    } else {
      assert lines + more == lines;
    }
  }

  /** Lines 52-105: the domains of one statement's tuples, a failing tuple skipped. */
  method CollectTuples(theseTuples: seq<string>) returns (found: set<string>)
    ensures found == TupleDomains(theseTuples)
  {
    found := {};
    var j := 0;
    while j < |theseTuples|
      invariant 0 <= j <= |theseTuples|
      invariant found == TupleDomains(theseTuples[..j])
    {
      CollectPrefix(theseTuples, TupleDomain, j);
      var savedUrl := TupleUrl(theseTuples[j]);
      if savedUrl.Some? {
        var domainName := DomainOfUrl(savedUrl.value);
        found := found + Elements(domainName);
      }
      j := j + 1;
    }
    assert theseTuples[..j] == theseTuples;
  }

  /**
   * Lines 16-111, with the size check and gunzip as inputs (`fileSize`,
   * `lines == None` when gunzip fails) and the file's lines as the text
   * iterator yields them. `written` is the domain file it leaves behind:
   * its path and its text, one name per line.
   */
  method ProcessOneFile(path: string, domainsDir: string, fileSize: nat, lines: Option<seq<string>>)
    returns (outcome: FileOutcome, written: Option<(string, string)>)
    ensures outcome == ExtractFile(fileSize, lines)
    ensures written.Some? <==> outcome.Written?
    ensures written.Some? ==> written.value.0 == domainsDir + "/" + ShortName(path) + ".txt"
    ensures written.Some? ==> forall l :: l in SplitLines(written.value.1) <==> l in outcome.domains
    ensures written.Some? ==> var ls := SplitLines(written.value.1);
      forall i, j :: 0 <= i < j < |ls| ==> ls[i] != ls[j]
  {
    var thisShortName := ShortName(path);
    if fileSize < MinFileSize {
      return TooSmall, None;
    }
    if lines.None? {
      return UnzipFailed, None;
    }
    var fileLines := lines.value;
    var justNamesUnique: set<string> := {};
    var i := 0;
    while i < |fileLines|
      invariant 0 <= i <= |fileLines|
      invariant ScanLines(fileLines[..i]) == Collecting(justNamesUnique)
    {
      var thisLine := fileLines[i];
      ScanPrefix(fileLines, i);
      if |thisLine| < MinLineLength {
        i := i + 1;
        continue;
      }
      if thisLine[..35] != InsertPrefix {
        StoppedStays(fileLines[..i + 1], fileLines[i + 1..], Classify, TupleDomains);
        assert fileLines[..i + 1] + fileLines[i + 1..] == fileLines;
        return Aborted(i, WrongPrefix), None;
      }
      if !EndsWith(thisLine, ";\n") {
        StoppedStays(fileLines[..i + 1], fileLines[i + 1..], Classify, TupleDomains);
        assert fileLines[..i + 1] + fileLines[i + 1..] == fileLines;
        return Aborted(i, NoTerminator), None;
      }
      var theseTuples := Tuples(thisLine);
      var found := CollectTuples(theseTuples);
      justNamesUnique := justNamesUnique + found;
      i := i + 1;
    }
    assert fileLines[..i] == fileLines;
    outcome := Written(justNamesUnique);
    forall d | d in justNamesUnique
      ensures NoBreaks(d)
    {
      ExtractFileMeaning(fileSize, lines, d);
      NameHasNoBreaks(d);
    }
    var order, text := WriteLines(justNamesUnique);
    written := Some((domainsDir + "/" + thisShortName + ".txt", text));
  }

  // ---------------------------------------------------------------- what gets into the set

  /** Everything the tuples contribute passes the filter chain. */
  lemma TupleDomainsAreNames(tuples: seq<string>)
    ensures forall d :: d in TupleDomains(tuples) ==> IsDomainName(d)
  {
    forall d | d in TupleDomains(tuples)
      ensures IsDomainName(d)
    {
      CollectMembers(tuples, TupleDomain, d);
      var j :| 0 <= j < |tuples| && TupleDomain(tuples[j]) == Some(d);
    }
  }

  /** The scan stops exactly at the first line that `classify` calls malformed. */
  lemma {:induction false} ScanStopsAtFirstBad(lines: seq<string>, classify: string -> LineKind, gather: seq<string> -> set<string>)
    ensures ScanWith(lines, classify, gather).Stopped? <==> exists i :: 0 <= i < |lines| && classify(lines[i]).Malformed?
    ensures ScanWith(lines, classify, gather).Stopped? ==>
      var i := ScanWith(lines, classify, gather).line;
      && i < |lines|
      && classify(lines[i]) == Malformed(ScanWith(lines, classify, gather).why)
      && forall j :: 0 <= j < i ==> !classify(lines[j]).Malformed?
  {
    if lines != [] {
      var init := lines[..|lines| - 1];
      ScanStopsAtFirstBad(init, classify, gather);
      assert forall j :: 0 <= j < |init| ==> init[j] == lines[j];
    }
  }

  /** "The line, judged by `classify`, is a statement one of whose tuples gives `d`." */
  predicate Gives(line: string, classify: string -> LineKind, gather: seq<string> -> set<string>, d: string)
  {
    classify(line).Statement? && d in gather(classify(line).tuples)
  }

  /** A scan that ran to the end holds exactly the domains some statement line gives. */
  lemma {:induction false} ScanCollects(lines: seq<string>, classify: string -> LineKind, gather: seq<string> -> set<string>, d: string)
    requires ScanWith(lines, classify, gather).Collecting?
    ensures d in ScanWith(lines, classify, gather).domains <==> exists i :: 0 <= i < |lines| && Gives(lines[i], classify, gather, d)
  {
    if lines != [] {
      var init := lines[..|lines| - 1];
      var last := lines[|lines| - 1];
      var prior := ScanWith(init, classify, gather);
      assert prior.Collecting?;
      ScanCollects(init, classify, gather, d);
      var ds := ScanWith(lines, classify, gather).domains;
      assert ds == prior.domains + (if classify(last).Statement? then gather(classify(last).tuples) else {});
      if d in ds {
        if d in prior.domains {
          var i :| 0 <= i < |init| && Gives(init[i], classify, gather, d);
          assert lines[i] == init[i];
        } else {
          assert Gives(lines[|lines| - 1], classify, gather, d);
        }
      }
      if exists i :: 0 <= i < |lines| && Gives(lines[i], classify, gather, d) {
        var i :| 0 <= i < |lines| && Gives(lines[i], classify, gather, d);
        if i < |init| {
          assert Gives(init[i], classify, gather, d);
          assert d in prior.domains;
        } else {
          assert i == |lines| - 1 && lines[i] == last;
          assert d in gather(classify(last).tuples);
        }
      }
    }
  }

  /**
   * The domain file is written exactly when the archive is big enough, gunzip
   * succeeds and no long line is malformed; it then holds only domain names,
   * and exactly those that some tuple of some statement line yields.
   */
  lemma ExtractFileMeaning(fileSize: nat, lines: Option<seq<string>>, d: string)
    ensures ExtractFile(fileSize, lines).Written? <==>
      fileSize >= MinFileSize && lines.Some? &&
      forall i :: 0 <= i < |lines.value| ==> !Classify(lines.value[i]).Malformed?
    ensures ExtractFile(fileSize, lines).Written? ==>
      (d in ExtractFile(fileSize, lines).domains <==>
        exists i, j :: 0 <= i < |lines.value| && Classify(lines.value[i]).Statement?
          && 0 <= j < |Classify(lines.value[i]).tuples| && TupleDomain(Classify(lines.value[i]).tuples[j]) == Some(d))
    ensures ExtractFile(fileSize, lines).Written? && d in ExtractFile(fileSize, lines).domains ==> IsDomainName(d)
  {
    if fileSize >= MinFileSize && lines.Some? {
      var ls := lines.value;
      ScanStopsAtFirstBad(ls, Classify, TupleDomains);
      if ScanLines(ls).Collecting? {
        ScanCollects(ls, Classify, TupleDomains, d);
        forall i | 0 <= i < |ls| && Classify(ls[i]).Statement?
          ensures Gives(ls[i], Classify, TupleDomains, d) <==>
            exists j :: 0 <= j < |Classify(ls[i]).tuples| && TupleDomain(Classify(ls[i]).tuples[j]) == Some(d)
          ensures Gives(ls[i], Classify, TupleDomains, d) ==> IsDomainName(d)
        {
          CollectMembers(Classify(ls[i]).tuples, TupleDomain, d);
          TupleDomainsAreNames(Classify(ls[i]).tuples);
        }
      }
    }
  }

  // ---------------------------------------------------------------- file names and domain files

  /**
   * Line 17: the archive's base name (the text after its last "/") up to
   * its first "-", the wiki's short name, such as `enwiki` for
   * `enwiki-latest-externallinks.sql.gz`.
   */
  function ShortName(path: string): (name: string)
    ensures '/' !in name && '-' !in name
    ensures StartsWith(AfterLast(path, '/'), name)
  {
    var base := AfterLast(path, '/');
    AfterLastShape(path, '/');
    var k := Find(base, "-");
    FindCharBefore(base, '-');
    if k < 0 then base else base[..k]
  }

  /** The short name of `dir/name-rest`, for a name without "-" and a rest without "/". */
  lemma ShortNameOf(dir: string, name: string, rest: string)
    requires '/' !in name && '-' !in name && '/' !in rest
    ensures ShortName(dir + "/" + name + "-" + rest) == name
  {
    var base := name + "-" + rest;
    assert '/' !in base by {
      forall j | 0 <= j < |base| ensures base[j] != '/' {
        if j < |name| { assert base[j] == name[j]; }
        else if j > |name| { assert base[j] == rest[j - |name| - 1]; }
      }
    }
    assert dir + "/" + name + "-" + rest == dir + "/" + base;
    AfterLastOf(dir, '/', base);
    FindCharAt(name, '-', rest);
    assert base[..|name|] == name;
  }

  /** A domain name holds no line break, so it reads back as one line. */
  lemma NameHasNoBreaks(d: string)
    requires IsDomainName(d)
    ensures NoBreaks(d)
  {
    forall i | 0 <= i < |d| ensures !IsLineBreak(d[i]) {
      assert IsDomainChar(d[i]);
    }
  }

  /** The lines of a text, as a set. */
  function LineSet(text: string): set<string>
  {
    var ls := SplitLines(text);
    set i | 0 <= i < |ls| :: ls[i]
  }

  /** Lines 221-225: every line of every domain file, the files read in order. */
  function ListedNames(texts: seq<string>): set<string>
  {
    if texts == [] then {}
    else ListedNames(texts[..|texts| - 1]) + LineSet(texts[|texts| - 1])
  }

  /** Lines 221-225: the master set, built file by file and line by line. */
  method CollectDomainFiles(texts: seq<string>) returns (fullDomainSet: set<string>)
    ensures fullDomainSet == ListedNames(texts)
  {
    fullDomainSet := {};
    var k := 0;
    while k < |texts|
      invariant 0 <= k <= |texts|
      invariant fullDomainSet == ListedNames(texts[..k])
    {
      assert texts[..k + 1][..k] == texts[..k];
      var fileLines := SplitLines(texts[k]);
      var before := fullDomainSet;
      var m := 0;
      while m < |fileLines|
        invariant 0 <= m <= |fileLines|
        invariant fullDomainSet == before + set i | 0 <= i < m :: fileLines[i]
      {
        fullDomainSet := fullDomainSet + {fileLines[m]};
        assert fileLines[..m + 1] == fileLines[..m] + [fileLines[m]];
        m := m + 1;
      }
      assert fileLines[..m] == fileLines;
      k := k + 1;
    }
    assert texts[..k] == texts;
  }

  /**
   * The master set is the union of what the domain files hold: when the
   * k-th file lists exactly the names of `domains[k]`, a name is in the
   * master set exactly when some file's set holds it, whatever the order
   * in which the files are read.
   */
  lemma {:induction false} ListedNamesUnion(texts: seq<string>, domains: seq<set<string>>, x: string)
    requires |texts| == |domains|
    requires forall k, l :: 0 <= k < |texts| ==> (l in SplitLines(texts[k]) <==> l in domains[k])
    ensures x in ListedNames(texts) <==> exists k :: 0 <= k < |domains| && x in domains[k]
  {
    if texts != [] {
      var n := |texts| - 1;
      ListedNamesUnion(texts[..n], domains[..n], x);
      assert forall k :: 0 <= k < n ==> domains[..n][k] == domains[k];
      assert x in domains[n] <==> x in SplitLines(texts[n]);
    }
  }

  // ---------------------------------------------------------------- tuples and URLs, concretely

  lemma TupleShape(a: string, b: string, q: char, url: string, tail: string)
    ensures a + "," + b + "," + [q] + url + "','" + tail == a + "," + (b + "," + ([q] + (url + "','" + tail)))
  {
  }

  /**
   * A tuple `a,b,` + a quote character + url + "','" + tail yields url,
   * whatever the tail, when a and b hold no comma and the first "','" after
   * the quote is the one that follows url.
   */
  lemma TupleUrlIntro(a: string, b: string, q: char, url: string, tail: string)
    requires ',' !in a && ',' !in b
    requires Find(url + "','", "','") == |url|
    ensures TupleUrl(a + "," + b + "," + [q] + url + "','" + tail) == Some(url)
  {
    var rest := url + "','" + tail;
    var third := [q] + rest;
    assert third[1..] == rest;
    var afterFirst := b + "," + third;
    TupleShape(a, b, q, url, tail);
    FindCharLast(a, ',');
    SplitFirstIntro(a, ",", afterFirst);
    FindCharLast(b, ',');
    SplitFirstIntro(b, ",", third);
    assert Drop1(third) == rest;
    SplitFirstIntro(url, "','", tail);
  }

  /**
   * A URL written `scheme://host/path`, with no ":" in the scheme and no "/"
   * in the host, yields the lowercased, port-stripped host when the scheme
   * is http/https, the host has a "." and the result is a domain name.
   */
  lemma UrlDomainOfParts(scheme: string, host: string, path: string)
    requires ':' !in scheme && '/' !in host
    ensures UrlDomain(scheme + ":" + "//" + host + "/" + path) ==
      var d := StripPort(Lower(host));
      if IsWebScheme(scheme) && '.' in host && IsDomainName(d) then Some(d) else None
  {
    var rest := "//" + host + "/" + path;
    assert scheme + ":" + "//" + host + "/" + path == scheme + ":" + rest;
    FindCharLast(scheme, ':');
    SplitFirstIntro(scheme, ":", rest);
    assert rest[..2] == "//";
    assert rest[2..] == host + "/" + path;
    FindCharAt(host, '/', path);
    assert (host + "/" + path)[..|host|] == host;
  }

  /** The port, and everything after the first ":", goes. */
  lemma StripPortOf(name: string, port: string)
    requires ':' !in name
    ensures StripPort(name + ":" + port) == name
  {
    FindCharAt(name, ':', port);
    assert (name + ":" + port)[..|name|] == name;
  }

  /** A host without ":" is kept whole. */
  lemma StripPortNone(name: string)
    requires ':' !in name
    ensures StripPort(name) == name
  {
    ContainsChar(name, ':');
  }

  /** The last label is what follows the last ".". */
  lemma LastLabelOf(d: string, front: string, last: string)
    requires d == front + "." + last && '.' !in last
    ensures LastLabel(d) == last
  {
    AfterLastOf(front, '.', last);
  }

  /** A character a label may hold. */
  predicate IsLabelChar(c: char)
  {
    'a' <= c <= 'z' || '0' <= c <= '9'
  }

  predicate IsLabel(s: string)
  {
    forall i :: 0 <= i < |s| ==> IsLabelChar(s[i])
  }

  /** A single label that is not a number is a domain name, and its own last label. */
  lemma SingleLabelName(s: string)
    requires s != "" && IsLabel(s) && !IsDigits(s)
    ensures IsDomainName(s) && LastLabel(s) == s
  {
    assert '.' !in s by {
      forall i | 0 <= i < |s| ensures s[i] != '.' { assert IsLabelChar(s[i]); }
    }
    AfterLastShape(s, '.');
    ContainsPair(s, '.', '.');
  }

  /**
   * Appending a label that is not a number to a name that does not end in
   * "." gives a name again; the appended label is then the last one. With an
   * empty label this is the fully qualified form with its trailing dot.
   */
  lemma ExtendName(front: string, last: string)
    requires IsDomainName(front) && front[|front| - 1] != '.'
    requires IsLabel(last) && !IsDigits(last)
    ensures IsDomainName(front + "." + last) && LastLabel(front + "." + last) == last
  {
    var d := front + "." + last;
    assert '.' !in last by {
      forall i | 0 <= i < |last| ensures last[i] != '.' { assert IsLabelChar(last[i]); }
    }
    LastLabelOf(d, front, last);
    forall i | 0 <= i < |d|
      ensures IsDomainChar(d[i])
    {
      if i < |front| {
        assert d[i] == front[i];
      } else if i > |front| {
        assert d[i] == last[i - |front| - 1];
        assert IsLabelChar(last[i - |front| - 1]);
      }
    }
    ContainsPair(front, '.', '.');
    ContainsPair(d, '.', '.');
    forall i | 0 <= i < |d| - 1
      ensures !(d[i] == '.' && d[i + 1] == '.')
    {
      if i + 1 < |front| {
        assert d[i] == front[i] && d[i + 1] == front[i + 1];
      } else if i + 1 == |front| {
        assert d[i] == front[|front| - 1];
      } else {
        assert d[i + 1] == last[i - |front|];
      }
    }
  }

  /** A name whose last label is a number, such as a dotted-quad address, is refused. */
  lemma NumericLastRefused(front: string, last: string)
    requires IsDigits(last)
    ensures !IsDomainName(front + "." + last)
  {
    assert '.' !in last by {
      forall i | 0 <= i < |last| ensures last[i] != '.' { assert '0' <= last[i] <= '9'; }
    }
    LastLabelOf(front + "." + last, front, last);
  }

  /** Lowercasing a name over [a-z0-9.:] leaves it as it is. */
  lemma LowerOfLowercase(s: string)
    requires forall i :: 0 <= i < |s| ==> !('A' <= s[i] <= 'Z')
    ensures Lower(s) == s
  {
  }

  /**
   * The "." test looks at the host before its port is removed: a port that
   * holds a "." lets a name through that has none, such as
   * `http://localhost:8080.x/`, which yields `localhost`.
   */
  lemma DotInPortAdmitsSingleLabel(name: string, port: string)
    requires IsDomainName(name) && '.' !in name
    requires '.' in port && '/' !in port && ':' !in port
    ensures UrlDomain("http" + ":" + "//" + (name + ":" + port) + "/" + "") == Some(name)
  {
    var host := name + ":" + port;
    NameHostFacts(name, port);
    UrlDomainOfParts("http", host, "");
    assert Lower("http") == "http";
    StripPortOf(name, Lower(port));
  }

  /** A host `name:port` over a domain name: its shape and its lowercase form. */
  lemma NameHostFacts(name: string, port: string)
    requires forall i :: 0 <= i < |name| ==> IsDomainChar(name[i])
    requires '/' !in port
    ensures ':' !in name && '/' !in name + ":" + port
    ensures '.' in port ==> '.' in name + ":" + port
    ensures Lower(name + ":" + port) == name + ":" + Lower(port)
  {
    var host := name + ":" + port;
    forall i | 0 <= i < |host|
      ensures host[i] != '/'
      ensures i < |name| ==> host[i] != ':' && Lower(host)[i] == host[i]
      ensures i > |name| ==> host[i] == port[i - |name| - 1] && Lower(host)[i] == Lower(port)[i - |name| - 1]
    {
      if i < |name| {
        assert host[i] == name[i] && IsDomainChar(name[i]);
      } else if i > |name| {
        assert host[i] == port[i - |name| - 1];
      }
    }
    if '.' in port {
      var j :| 0 <= j < |port| && port[j] == '.';
      assert host[|name| + 1 + j] == '.';
    }
    assert Lower(host) == name + ":" + Lower(port);
  }

  // The concrete URLs below are checked in small steps, each its own lemma,
  // so that no single proof has to take apart more than one string literal.

  lemma ExampleComLabels()
    ensures "example" != "" && IsLabel("example") && !IsDigits("example")
    ensures IsLabel("com") && !IsDigits("com")
    ensures "example" + "." + "com" == "example.com"
  {
    assert "example"[0] == 'e';
    assert "com"[0] == 'c';
  }

  /** `example.com` is a domain name. */
  lemma ExampleComIsName()
    ensures IsDomainName("example.com") && "example.com"[|"example.com"| - 1] != '.'
  {
    ExampleComLabels();
    SingleLabelName("example");
    ExtendName("example", "com");
  }

  lemma MixedCaseFacts()
    ensures Lower("HTTP") == "http" && Lower("Example.COM:8080") == "example.com" + ":" + "8080"
    ensures ':' !in "HTTP" && '/' !in "Example.COM:8080" && '.' in "Example.COM:8080" && ':' !in "example.com"
  {
    assert "Example.COM:8080"[7] == '.';
  }

  lemma UrlExampleMixedCaseParts()
    ensures UrlDomain("HTTP" + ":" + "//" + "Example.COM:8080" + "/" + "x?y") == Some("example.com")
  {
    MixedCaseFacts();
    UrlDomainOfParts("HTTP", "Example.COM:8080", "x?y");
    StripPortOf("example.com", "8080");
    ExampleComIsName();
  }

  lemma MixedCaseJoin()
    ensures "HTTP://Example.COM:8080/x?y" == "HTTP" + ":" + "//" + "Example.COM:8080" + "/" + "x?y"
  {
  }

  /** `HTTP://Example.COM:8080/x?y` gives `example.com`: case folded, port removed. */
  lemma UrlExampleMixedCase()
    ensures UrlDomain("HTTP://Example.COM:8080/x?y") == Some("example.com")
  {
    UrlExampleMixedCaseParts();
    MixedCaseJoin();
  }

  lemma UrlExampleFtpParts()
    ensures UrlDomain("ftp" + ":" + "//" + "example.com" + "/" + "pub") == None
  {
    assert ':' !in "ftp" && '/' !in "example.com";
    UrlDomainOfParts("ftp", "example.com", "pub");
    assert Lower("ftp") == "ftp";
  }

  lemma FtpJoin()
    ensures "ftp://example.com/pub" == "ftp" + ":" + "//" + "example.com" + "/" + "pub"
  {
  }

  /** An ftp link contributes nothing. */
  lemma UrlExampleFtp()
    ensures UrlDomain("ftp://example.com/pub") == None
  {
    UrlExampleFtpParts();
    FtpJoin();
  }

  lemma AddressFacts()
    ensures ':' !in "192.168.1.1" && '/' !in "192.168.1.1"
    ensures IsDigits("1") && "192.168.1" + "." + "1" == "192.168.1.1"
    ensures forall i :: 0 <= i < |"192.168.1.1"| ==> !('A' <= "192.168.1.1"[i] <= 'Z')
  {
  }

  lemma UrlExampleAddressParts()
    ensures UrlDomain("http" + ":" + "//" + "192.168.1.1" + "/" + "") == None
  {
    AddressFacts();
    UrlDomainOfParts("http", "192.168.1.1", "");
    LowerOfLowercase("192.168.1.1");
    StripPortNone("192.168.1.1");
    NumericLastRefused("192.168.1", "1");
  }

  lemma AddressJoin()
    ensures "http://192.168.1.1/" == "http" + ":" + "//" + "192.168.1.1" + "/" + ""
  {
  }

  /** A dotted-quad address is refused: its last label is a number. */
  lemma UrlExampleAddress()
    ensures UrlDomain("http://192.168.1.1/") == None
  {
    UrlExampleAddressParts();
    AddressJoin();
  }

  lemma TrailingDotFacts()
    ensures ':' !in "example.com." && '/' !in "example.com." && '.' in "example.com."
    ensures "example.com" + "." + "" == "example.com." && Lower("http") == "http"
    ensures forall i :: 0 <= i < |"example.com."| ==> !('A' <= "example.com."[i] <= 'Z')
  {
    assert "example.com."[7] == '.';
  }

  lemma UrlExampleTrailingDotParts()
    ensures UrlDomain("http" + ":" + "//" + "example.com." + "/" + "") == Some("example.com.")
  {
    TrailingDotFacts();
    ExampleComIsName();
    ExtendName("example.com", "");
    UrlDomainOfParts("http", "example.com.", "");
    LowerOfLowercase("example.com.");
    StripPortNone("example.com.");
  }

  lemma TrailingDotJoin()
    ensures "http://example.com./" == "http" + ":" + "//" + "example.com." + "/" + ""
  {
  }

  /** A fully qualified name with its trailing dot is kept as written. */
  lemma UrlExampleTrailingDot()
    ensures UrlDomain("http://example.com./") == Some("example.com.")
  {
    UrlExampleTrailingDotParts();
    TrailingDotJoin();
  }

  lemma DotInPortFacts()
    ensures "localhost" != "" && IsLabel("localhost") && !IsDigits("localhost") && '.' !in "localhost"
    ensures '.' in "8080.x" && '/' !in "8080.x" && ':' !in "8080.x"
  {
    assert "localhost"[0] == 'l';
    assert "8080.x"[4] == '.';
  }

  lemma UrlExampleDotInPortParts()
    ensures UrlDomain("http" + ":" + "//" + ("localhost" + ":" + "8080.x") + "/" + "") == Some("localhost")
  {
    DotInPortFacts();
    SingleLabelName("localhost");
    DotInPortAdmitsSingleLabel("localhost", "8080.x");
  }

  lemma DotInPortJoin()
    ensures "http://localhost:8080.x/" == "http" + ":" + "//" + ("localhost" + ":" + "8080.x") + "/" + ""
  {
  }

  /** `http://localhost:8080.x/` yields `localhost`, a name with no ".". */
  lemma UrlExampleDotInPort()
    ensures UrlDomain("http://localhost:8080.x/") == Some("localhost")
  {
    UrlExampleDotInPortParts();
    DotInPortJoin();
  }
}
