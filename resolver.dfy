/**
 * wiki_results.py: `get_dns_for_one_name` reads the two JSON replies of one
 * `getdns_query` run (an A query with DNSSEC, then an AAAA query) into a
 * record `{"4": [...], "6": [...], "D": bool}`; the main block maps it over
 * all names in order, splits the names into those without an IPv4 address
 * and the rest, counts DNSSEC and IPv6 hits and keeps the first
 * `subset_size` results.
 */
module Resolver {
  import opened Wrappers
  import opened JsonTree
  import opened LineFiles

  // ---------------------------------------------------------------- data

  /**
   * What one run of the external resolver gave: it failed (the subprocess
   * raised), or its stdout, split into lines, each line as `json.loads` read
   * it (`None` where it raised).
   */
  datatype ProbeReply = ProbeFailed | Output(replies: seq<Option<Json>>)

  /** The dict `{"4": [...], "6": [...], "D": ...}` the function returns. */
  datatype DnsRecord = DnsRecord(v4: seq<Json>, v6: seq<Json>, dnssec: bool)

  /** Line 12: the record every early return starts from. */
  const Default := DnsRecord([], [], false)

  /** The exceptions `get_dns_for_one_name` does not catch. */
  datatype Uncaught =
    | NotADict        // `.get` on a reply that parsed to something other than an object (lines 36, 54)
    | NoRepliesTree   // `a_dnssec_dict["replies_tree"]` inside the handler of line 67

  /** A call either returns a record or raises. */
  datatype Handled = Returned(record: DnsRecord) | Raised(error: Uncaught)

  // ---------------------------------------------------------------- address records

  /** `rec["address_type"] == tag`, where that lookup succeeds. */
  predicate HasTag(rec: Json, tag: string)
  {
    rec.JObject? && "address_type" in rec.fields && rec.fields["address_type"] == JString(tag)
  }

  /**
   * The loop body of lines 42-43 (and 56-57) raises on this record: it is
   * not an object, has no "address_type", or carries the tag but no
   * "address_data".
   */
  predicate Malformed(rec: Json, tag: string)
  {
    !rec.JObject? || "address_type" !in rec.fields || (HasTag(rec, tag) && "address_data" !in rec.fields)
  }

  /** The "address_data" of a record that carries the tag and has one. */
  function DataOf(rec: Json, tag: string): seq<Json>
  {
    if HasTag(rec, tag) && "address_data" in rec.fields then [rec.fields["address_data"]] else []
  }

  /** The address data of the tagged records, in list order. */
  function TaggedData(items: seq<Json>, tag: string): (found: seq<Json>)
    ensures |found| <= |items|
  {
    if items == [] then []
    else TaggedData(items[..|items| - 1], tag) + DataOf(items[|items| - 1], tag)
  }

  /** The index of the first malformed record, or the length of the list. */
  function FirstMalformed(items: seq<Json>, tag: string): (k: nat)
    ensures k <= |items|
    ensures k < |items| ==> Malformed(items[k], tag)
    ensures forall j :: 0 <= j < k ==> !Malformed(items[j], tag)
  {
    if items == [] then 0
    else if Malformed(items[0], tag) then 0
    else 1 + FirstMalformed(items[1..], tag)
  }

  /** The addresses one address loop gathers, and whether it ran to its end. */
  datatype Scan = Scan(found: seq<Json>, complete: bool)

  /**
   * Lines 41-46 (and 55-60) over whatever `just_address_answers` held: a
   * list is walked until its first malformed record; iterating an object or
   * a string yields strings, on which the record lookup raises at once; any
   * other value (`None` included) is not iterable.
   */
  function AddressScan(list: Json, tag: string): Scan
  {
    match list
    case JArray(items) =>
      var k := FirstMalformed(items, tag);
      Scan(TaggedData(items[..k], tag), k == |items|)
    case JObject(fields) => Scan([], fields == map[])
    case JString(s) => Scan([], s == "")
    case _ => Scan([], false)
  }

  /** One more record: the data gathered so far, extended by that record's. */
  lemma TaggedDataSnoc(items: seq<Json>, i: nat, tag: string)
    requires i < |items|
    ensures TaggedData(items[..i + 1], tag) == TaggedData(items[..i], tag) + DataOf(items[i], tag)
  {
    assert items[..i + 1][..i] == items[..i];
  }

  /** Gathering over two lists one after the other is gathering over each. */
  lemma {:induction false} TaggedDataAppend(a: seq<Json>, b: seq<Json>, tag: string)
    ensures TaggedData(a + b, tag) == TaggedData(a, tag) + TaggedData(b, tag)
    decreases |b|
  {
    if b == [] {
      assert a + b == a;
    } else {
      var n := |b| - 1;
      assert (a + b)[..|a + b| - 1] == a + b[..n];
      TaggedDataAppend(a, b[..n], tag);
    }
  }

  /** The gathered data are exactly the data of the tagged records. */
  lemma {:induction false} TaggedDataMembers(items: seq<Json>, tag: string, x: Json)
    ensures x in TaggedData(items, tag) <==>
      exists i :: 0 <= i < |items| && HasTag(items[i], tag) && "address_data" in items[i].fields
        && items[i].fields["address_data"] == x
  {
    if items != [] {
      var n := |items| - 1;
      TaggedDataMembers(items[..n], tag, x);
      assert forall i :: 0 <= i < n ==> items[..n][i] == items[i];
    }
  }

  /**
   * What one address loop does with a list: it completes exactly when no
   * record is malformed; it gathers, in order, the data of the tagged
   * records before the first malformed one, and nothing else.
   */
  lemma AddressScanOfList(items: seq<Json>, tag: string, x: Json)
    ensures AddressScan(JArray(items), tag).complete <==> forall i :: 0 <= i < |items| ==> !Malformed(items[i], tag)
    ensures x in AddressScan(JArray(items), tag).found <==>
      exists i :: 0 <= i < FirstMalformed(items, tag) && HasTag(items[i], tag) && items[i].fields["address_data"] == x
  {
    var k := FirstMalformed(items, tag);
    TaggedDataMembers(items[..k], tag, x);
    assert forall i :: 0 <= i < k ==> items[..k][i] == items[i];
  }

  /** Lines 41-46 (and 55-60): the address loop, stopping at the first record that raises. */
  method CollectAddresses(list: Json, tag: string) returns (found: seq<Json>, complete: bool)
    ensures Scan(found, complete) == AddressScan(list, tag)
  {
    found := [];
    match list {
      case JArray(items) =>
        var i := 0;
        while i < |items|
          invariant 0 <= i <= |items|
          invariant forall j :: 0 <= j < i ==> !Malformed(items[j], tag)
          invariant found == TaggedData(items[..i], tag)
        {
          var thisRec := items[i];
          if Malformed(thisRec, tag) {
            assert FirstMalformed(items, tag) == i by { FirstMalformedAt(items, tag, i); }
            return found, false;
          }
          TaggedDataSnoc(items, i, tag);
          if HasTag(thisRec, tag) {
            found := found + [thisRec.fields["address_data"]];
          }
          i := i + 1;
        }
        FirstMalformedAt(items, tag, i);
        assert items[..i] == items;
        complete := true;
      case JObject(fields) =>
        complete := fields == map[];
      case JString(s) =>
        complete := s == "";
      case _ =>
        complete := false;
    }
  }

  /** The first malformed record is the one after a run of well-formed ones. */
  lemma FirstMalformedAt(items: seq<Json>, tag: string, i: nat)
    requires i <= |items|
    requires forall j :: 0 <= j < i ==> !Malformed(items[j], tag)
    requires i < |items| ==> Malformed(items[i], tag)
    ensures FirstMalformed(items, tag) == i
  {
  }

  // ---------------------------------------------------------------- one name

  /**
   * Line 63: the A reply's first reply tree is an object whose
   * "dnssec_status" is 400. Every other shape either compares unequal or
   * raises inside the `try`, which is caught and leaves "D" false.
   */
  predicate DnssecSigned(tree: Json)
  {
    && tree.JArray?
    && |tree.items| > 0
    && tree.items[0].JObject?
    && "dnssec_status" in tree.items[0].fields
    && tree.items[0].fields["dnssec_status"] == JNumber(400.0)
  }

  /** Lines 10-68: what `get_dns_for_one_name` returns or raises for one probe reply. */
  function Interpret(reply: ProbeReply): Handled
  {
    match reply
    case ProbeFailed => Returned(Default)
    case Output(replies) =>
      if |replies| != 2 then Returned(Default)
      else
        match replies[0]
        case None => Returned(Default)
        case Some(aReply) =>
          if !aReply.JObject? then Raised(NotADict)
          else
            var aList := Get(aReply.fields, "just_address_answers");
            if !Truthy(aList) then Returned(Default)
            else
              var v4 := AddressScan(aList, "IPv4");
              if !v4.complete then Returned(DnsRecord(v4.found, [], false))
              else
                match replies[1]
                case None => Returned(DnsRecord(v4.found, [], false))
                case Some(aaaaReply) =>
                  if !aaaaReply.JObject? then Raised(NotADict)
                  else
                    var v6 := AddressScan(Get(aaaaReply.fields, "just_address_answers"), "IPv6");
                    if !v6.complete then Returned(DnsRecord(v4.found, v6.found, false))
                    else if "replies_tree" !in aReply.fields then Raised(NoRepliesTree)
                    else Returned(DnsRecord(v4.found, v6.found, DnssecSigned(aReply.fields["replies_tree"])))
  }

  /**
   * Lines 10-68, step by step: the early returns, the two address loops and
   * the DNSSEC test, with the subprocess run and `json.loads` as the input
   * `reply`.
   */
  method GetDnsForOneName(reply: ProbeReply) returns (result: Handled)
    ensures result == Interpret(reply)
  {
    var dictToReturn := Default;
    if reply.ProbeFailed? {
      return Returned(dictToReturn);
    }
    var lines := reply.replies;
    if |lines| != 2 {
      return Returned(dictToReturn);
    }
    var aDnssecReply, aaaaReply := lines[0], lines[1];
    if aDnssecReply.None? {
      return Returned(dictToReturn);
    }
    var aDnssecDict := aDnssecReply.value;
    if !aDnssecDict.JObject? {
      return Raised(NotADict);
    }
    var aAddrList := Get(aDnssecDict.fields, "just_address_answers");
    if !Truthy(aAddrList) {
      return Returned(dictToReturn);
    }
    var v4, v4Complete := CollectAddresses(aAddrList, "IPv4");
    dictToReturn := dictToReturn.(v4 := v4);
    if !v4Complete {
      return Returned(dictToReturn);
    }
    if aaaaReply.None? {
      return Returned(dictToReturn);
    }
    var aaaaDict := aaaaReply.value;
    if !aaaaDict.JObject? {
      return Raised(NotADict);
    }
    var aaaaAddrList := Get(aaaaDict.fields, "just_address_answers");
    var v6, v6Complete := CollectAddresses(aaaaAddrList, "IPv6");
    dictToReturn := dictToReturn.(v6 := v6);
    if !v6Complete {
      return Returned(dictToReturn);
    }
    if "replies_tree" !in aDnssecDict.fields {
      return Raised(NoRepliesTree);
    }
    if DnssecSigned(aDnssecDict.fields["replies_tree"]) {
      dictToReturn := dictToReturn.(dnssec := true);
    }
    return Returned(dictToReturn);
  }

  /**
   * Lines 30-39: when the A reply does not parse, or its address list is
   * missing or empty, the result is the default record whatever the AAAA
   * reply holds.
   */
  lemma AFailureIgnoresAAAA(a: Option<Json>, x: Option<Json>)
    requires a.None? || (a.value.JObject? && !Truthy(Get(a.value.fields, "just_address_answers")))
    ensures Interpret(Output([a, x])) == Returned(Default)
  {
  }

  /**
   * Lines 40-60: the IPv4 list depends on the A reply alone. Whatever the
   * AAAA reply, a returned record carries the same "4" list.
   */
  lemma V4IndependentOfAAAA(a: Option<Json>, x: Option<Json>, y: Option<Json>)
    requires Interpret(Output([a, x])).Returned? && Interpret(Output([a, y])).Returned?
    ensures Interpret(Output([a, x])).record.v4 == Interpret(Output([a, y])).record.v4
  {
  }

  /**
   * Lines 40-46: the "4" list holds, in order, the address data of records
   * of the A reply's list tagged IPv4, and nothing else.
   */
  lemma V4FromTaggedRecords(a: map<string, Json>, x: Option<Json>, v: Json)
    requires Interpret(Output([Some(JObject(a)), x])).Returned?
    ensures v in Interpret(Output([Some(JObject(a)), x])).record.v4 ==>
      var list := Get(a, "just_address_answers");
      && list.JArray?
      && exists i :: && 0 <= i < |list.items| && HasTag(list.items[i], "IPv4")
                     && "address_data" in list.items[i].fields && list.items[i].fields["address_data"] == v
  {
    var list := Get(a, "just_address_answers");
    if list.JArray? {
      AddressScanOfList(list.items, "IPv4", v);
    }
  }

  /**
   * Lines 62-64: "D" is true exactly when both address loops ran to their
   * end and the first reply tree of the A reply reports status 400.
   */
  lemma DnssecIff(reply: ProbeReply)
    ensures (Interpret(reply).Returned? && Interpret(reply).record.dnssec) <==>
      && reply.Output?
      && |reply.replies| == 2
      && reply.replies[0].Some? && reply.replies[0].value.JObject?
      && reply.replies[1].Some? && reply.replies[1].value.JObject?
      && var a := reply.replies[0].value.fields;
         var aaaa := reply.replies[1].value.fields;
         && Truthy(Get(a, "just_address_answers"))
         && AddressScan(Get(a, "just_address_answers"), "IPv4").complete
         && AddressScan(Get(aaaa, "just_address_answers"), "IPv6").complete
         && "replies_tree" in a
         && DnssecSigned(a["replies_tree"])
  {
  }

  /**
   * The exceptions that escape: a reply that parsed to a non-object reaches
   * `.get`, or the DNSSEC step runs on an A reply without "replies_tree".
   */
  lemma RaisedIff(reply: ProbeReply)
    ensures Interpret(reply).Raised? <==>
      && reply.Output?
      && |reply.replies| == 2
      && reply.replies[0].Some?
      && var a := reply.replies[0].value;
         || !a.JObject?
         || (&& Truthy(Get(a.fields, "just_address_answers"))
             && AddressScan(Get(a.fields, "just_address_answers"), "IPv4").complete
             && reply.replies[1].Some?
             && var aaaa := reply.replies[1].value;
                || !aaaa.JObject?
                || (AddressScan(Get(aaaa.fields, "just_address_answers"), "IPv6").complete && "replies_tree" !in a.fields))
  {
  }

  // ---------------------------------------------------------------- the main block

  /** An insertion-ordered Python dict from names to records. */
  datatype Dict = Dict(keys: seq<string>, vals: map<string, DnsRecord>)

  /** The keys are listed once each, in insertion order, and are exactly the map's. */
  predicate ValidDict(d: Dict)
  {
    && (forall i, j :: 0 <= i < j < |d.keys| ==> d.keys[i] != d.keys[j])
    && (forall k :: k in d.vals ==> k in d.keys)
    && (forall i :: 0 <= i < |d.keys| ==> d.keys[i] in d.vals)
  }

  const EmptyDict := Dict([], map[])

  /** `d[k] = v`: a new key goes last; an existing key keeps its place and takes the new value. */
  function Put(d: Dict, k: string, v: DnsRecord): (r: Dict)
    requires ValidDict(d)
    ensures ValidDict(r)
    ensures r.vals == d.vals[k := v]
    ensures k in d.vals ==> r.keys == d.keys
    ensures k !in d.vals ==> r.keys == d.keys + [k]
  {
    if k in d.vals then Dict(d.keys, d.vals[k := v]) else Dict(d.keys + [k], d.vals[k := v])
  }

  /** The records of calls that all returned. */
  function RecordsOf(handled: seq<Handled>): (records: seq<DnsRecord>)
    ensures |records| == |handled|
    ensures forall i :: 0 <= i < |handled| && handled[i].Returned? ==> records[i] == handled[i].record
  {
    seq(|handled|, i requires 0 <= i < |handled| => if handled[i].Returned? then handled[i].record else Default)
  }

  /**
   * Lines 119-123: names whose "4" list is empty go to `dns_failed` in
   * order; the others are put into `dns_results`.
   */
  function Partition(names: seq<string>, records: seq<DnsRecord>): (p: (seq<string>, Dict))
    requires |names| == |records|
    ensures ValidDict(p.1)
    ensures |p.0| <= |names|
  {
    if names == [] then ([], EmptyDict)
    else
      var n := |names| - 1;
      var prior := Partition(names[..n], records[..n]);
      if |records[n].v4| == 0 then (prior.0 + [names[n]], prior.1)
      else (prior.0, Put(prior.1, names[n], records[n]))
  }

  lemma PartitionSnoc(names: seq<string>, records: seq<DnsRecord>, i: nat)
    requires |names| == |records| && i < |names|
    ensures Partition(names[..i + 1], records[..i + 1]) ==
      var prior := Partition(names[..i], records[..i]);
      if |records[i].v4| == 0 then (prior.0 + [names[i]], prior.1)
      else (prior.0, Put(prior.1, names[i], records[i]))
  {
    assert names[..i + 1][..i] == names[..i];
    assert records[..i + 1][..i] == records[..i];
  }

  /** A name is listed as failed exactly when one of its records has no IPv4 address. */
  lemma {:induction false} FailedExactly(names: seq<string>, records: seq<DnsRecord>, x: string)
    requires |names| == |records|
    ensures x in Partition(names, records).0 <==>
      exists i :: 0 <= i < |names| && names[i] == x && |records[i].v4| == 0
  {
    if names != [] {
      var n := |names| - 1;
      FailedExactly(names[..n], records[..n], x);
      assert forall i :: 0 <= i < n ==> names[..n][i] == names[i] && records[..n][i] == records[i];
    }
  }

  /**
   * The positions, in increasing order, of the records without an IPv4
   * address: each listed position has none, and every such position is
   * listed.
   */
  function EmptyV4Positions(records: seq<DnsRecord>): (idx: seq<nat>)
    ensures forall m :: 0 <= m < |idx| ==> idx[m] < |records| && |records[idx[m]].v4| == 0
    ensures forall m, m' {:trigger idx[m], idx[m']} :: 0 <= m < m' < |idx| ==> idx[m] < idx[m']
    ensures forall i :: 0 <= i < |records| && |records[i].v4| == 0 ==> i in idx
  {
    if records == [] then []
    else
      var n := |records| - 1;
      var prior := EmptyV4Positions(records[..n]);
      if |records[n].v4| == 0 then prior + [n] else prior
  }

  /**
   * `dns_failed` keeps input order: it lists the names at the positions of
   * the records without an IPv4 address, in increasing order.
   */
  lemma {:induction false} FailedInOrder(names: seq<string>, records: seq<DnsRecord>)
    requires |names| == |records|
    ensures |Partition(names, records).0| == |EmptyV4Positions(records)|
    ensures forall m :: 0 <= m < |EmptyV4Positions(records)| ==>
      Partition(names, records).0[m] == names[EmptyV4Positions(records)[m]]
  {
    if names != [] {
      var n := |names| - 1;
      FailedInOrder(names[..n], records[..n]);
      var prior := Partition(names[..n], records[..n]).0;
      var idx := EmptyV4Positions(records[..n]);
      assert Partition(names, records).0 == if |records[n].v4| == 0 then prior + [names[n]] else prior;
      assert EmptyV4Positions(records) == if |records[n].v4| == 0 then idx + [n] else idx;
      forall m | 0 <= m < |idx|
        ensures prior[m] == names[idx[m]]
      {
        assert names[..n][idx[m]] == names[idx[m]];
      }
    }
  }

  /** A name has a result exactly when one of its records has an IPv4 address. */
  lemma {:induction false} ResultsExactly(names: seq<string>, records: seq<DnsRecord>, x: string)
    requires |names| == |records|
    ensures x in Partition(names, records).1.vals <==>
      exists i :: 0 <= i < |names| && names[i] == x && |records[i].v4| > 0
  {
    if names != [] {
      var n := |names| - 1;
      ResultsExactly(names[..n], records[..n], x);
      assert forall i :: 0 <= i < n ==> names[..n][i] == names[i] && records[..n][i] == records[i];
    }
  }

  /** The last position where `x` occurs with an IPv4 address, or -1. */
  function LastResolved(names: seq<string>, records: seq<DnsRecord>, x: string): (i: int)
    requires |names| == |records|
    ensures -1 <= i < |names|
    ensures i >= 0 ==> names[i] == x && |records[i].v4| > 0
    ensures forall j :: i < j < |names| && names[j] == x ==> |records[j].v4| == 0
  {
    if names == [] then -1
    else
      var n := |names| - 1;
      if names[n] == x && |records[n].v4| > 0 then n else LastResolved(names[..n], records[..n], x)
  }

  /**
   * The record stored for a name is that of its last occurrence with an
   * IPv4 address (a later `dns_results[name] = ...` overwrites an earlier one).
   */
  lemma {:induction false} ResultIsLast(names: seq<string>, records: seq<DnsRecord>, x: string)
    requires |names| == |records|
    ensures x in Partition(names, records).1.vals <==> LastResolved(names, records, x) >= 0
    ensures x in Partition(names, records).1.vals ==>
      Partition(names, records).1.vals[x] == records[LastResolved(names, records, x)]
  {
    if names != [] {
      var n := |names| - 1;
      ResultIsLast(names[..n], records[..n], x);
    }
  }

  /** With distinct names, every name lands in exactly one of the two. */
  lemma {:induction false} PartitionSizes(names: seq<string>, records: seq<DnsRecord>)
    requires |names| == |records|
    requires forall i, j :: 0 <= i < j < |names| ==> names[i] != names[j]
    ensures |Partition(names, records).0| + |Partition(names, records).1.keys| == |names|
  {
    if names != [] {
      var n := |names| - 1;
      PartitionSizes(names[..n], records[..n]);
      var prior := Partition(names[..n], records[..n]);
      if |records[n].v4| > 0 {
        assert names[n] !in prior.1.vals by {
          ResultsExactly(names[..n], records[..n], names[n]);
        }
      }
    }
  }

  /** How many of `keys` map to a record with `want`. */
  function CountKeys(keys: seq<string>, vals: map<string, DnsRecord>, want: DnsRecord -> bool): (c: nat)
    ensures c <= |keys|
  {
    if keys == [] then 0
    else
      var n := |keys| - 1;
      CountKeys(keys[..n], vals, want) + (if keys[n] in vals && want(vals[keys[n]]) then 1 else 0)
  }

  predicate Signed(r: DnsRecord) { r.dnssec }
  predicate HasV6(r: DnsRecord) { |r.v6| > 0 }

  /** A count reaches the number of keys exactly when every key's record has `want`, and is 0 exactly when none has. */
  lemma {:induction false} CountKeysExtremes(keys: seq<string>, vals: map<string, DnsRecord>, want: DnsRecord -> bool)
    ensures CountKeys(keys, vals, want) == |keys| <==> forall i :: 0 <= i < |keys| ==> keys[i] in vals && want(vals[keys[i]])
    ensures CountKeys(keys, vals, want) == 0 <==> forall i :: 0 <= i < |keys| ==> !(keys[i] in vals && want(vals[keys[i]]))
  {
    if keys != [] {
      var n := |keys| - 1;
      CountKeysExtremes(keys[..n], vals, want);
      assert forall i :: 0 <= i < n ==> keys[..n][i] == keys[i];
    }
  }

  /** Python's end index for `xs[:n]` on a list of length `len`, negative `n` counting from the end. */
  function PySliceEnd(n: int, len: nat): (e: nat)
    ensures e <= len
    ensures n >= 0 ==> e == if n < len then n else len
    ensures n < 0 ==> e == if len + n > 0 then len + n else 0
  {
    if n >= 0 then (if n < len then n else len)
    else if len + n > 0 then len + n else 0
  }

  /** `dst[name] = src[name]` for each name of `ks` in turn, starting from an empty dict. */
  function CopyKeys(ks: seq<string>, src: Dict): (r: Dict)
    requires forall i :: 0 <= i < |ks| ==> ks[i] in src.vals
    ensures ValidDict(r)
  {
    if ks == [] then EmptyDict
    else
      var n := |ks| - 1;
      Put(CopyKeys(ks[..n], src), ks[n], src.vals[ks[n]])
  }

  /** Lines 139-145: the first `subset_size` keys of the results, copied with their records. */
  function Cull(d: Dict, subsetSize: int): Dict
    requires ValidDict(d)
  {
    CopyKeys(d.keys[..PySliceEnd(subsetSize, |d.keys|)], d)
  }

  /** Copying distinct keys lists them in order, each with its record from the source. */
  lemma {:induction false} CopyKeysMeaning(ks: seq<string>, src: Dict)
    requires forall i :: 0 <= i < |ks| ==> ks[i] in src.vals
    requires forall i, j :: 0 <= i < j < |ks| ==> ks[i] != ks[j]
    ensures CopyKeys(ks, src).keys == ks
    ensures forall k :: k in CopyKeys(ks, src).vals ==> k in src.vals && CopyKeys(ks, src).vals[k] == src.vals[k]
  {
    if ks != [] {
      var n := |ks| - 1;
      CopyKeysMeaning(ks[..n], src);
      assert ks[n] !in ks[..n];
      assert ks == ks[..n] + [ks[n]];
    }
  }

  /**
   * `dns_samples` holds exactly the first min(subset_size, len(dns_results))
   * keys, in insertion order, each with its record unchanged.
   */
  lemma CullKeepsPrefix(d: Dict, subsetSize: int)
    requires ValidDict(d)
    ensures ValidDict(Cull(d, subsetSize))
    ensures Cull(d, subsetSize).keys == d.keys[..PySliceEnd(subsetSize, |d.keys|)]
    ensures subsetSize >= 0 ==> |Cull(d, subsetSize).keys| == if subsetSize < |d.keys| then subsetSize else |d.keys|
    ensures forall k :: k in Cull(d, subsetSize).vals ==> k in d.vals && Cull(d, subsetSize).vals[k] == d.vals[k]
  {
    CopyKeysMeaning(d.keys[..PySliceEnd(subsetSize, |d.keys|)], d);
  }

  /** Why a run ends without saving anything. */
  datatype Crash =
    | WorkerRaised(error: Uncaught)   // a call raised; `executor.map` re-raises it in the loop of line 120
    | NoNames                         // line 135 divides by len(all_names) == 0
    | NoneResolved                    // line 136 divides by len(dns_results) == 0

  /** What the main block computes and saves. */
  datatype Run =
    | Crashed(why: Crash)
    | Finished(results: Dict, failed: seq<string>, dnssecTotal: nat, ipv6Total: nat,
               samples: Dict, failedText: string)

  /** The index of the first call that raised, or the number of calls. */
  function FirstRaised(handled: seq<Handled>): (k: nat)
    ensures k <= |handled|
    ensures k < |handled| ==> handled[k].Raised?
    ensures forall j :: 0 <= j < k ==> handled[j].Returned?
  {
    if handled == [] then 0
    else if handled[0].Raised? then 0
    else 1 + FirstRaised(handled[1..])
  }

  /** Lines 115-153 for the names `names`, name i getting the probe reply `replies[i]`. */
  function Resolve(names: seq<string>, replies: seq<ProbeReply>, subsetSize: int): Run
    requires |replies| == |names|
  {
    var handled := LookUpAll(replies);
    var k := FirstRaised(handled);
    if k < |handled| then Crashed(WorkerRaised(handled[k].error))
    else
      var p := Partition(names, RecordsOf(handled));
      var failed := p.0;
      var results := p.1;
      if |names| == 0 then Crashed(NoNames)
      else if |results.keys| == 0 then Crashed(NoneResolved)
      else Finished(results, failed,
                    CountKeys(results.keys, results.vals, Signed), CountKeys(results.keys, results.vals, HasV6),
                    Cull(results, subsetSize), JoinLines(failed))
  }

  /** The calls of `executor.map`, one per name, results in input order. */
  function LookUpAll(replies: seq<ProbeReply>): (handled: seq<Handled>)
    ensures |handled| == |replies|
    ensures forall i :: 0 <= i < |replies| ==> handled[i] == Interpret(replies[i])
  {
    seq(|replies|, i requires 0 <= i < |replies| => Interpret(replies[i]))
  }

  /** Line 119: `executor.map(get_dns_for_one_name, all_names)`, run one name after another. */
  method MapLookups(replies: seq<ProbeReply>) returns (handled: seq<Handled>)
    ensures handled == LookUpAll(replies)
  {
    handled := [];
    var i := 0;
    while i < |replies|
      invariant 0 <= i <= |replies|
      invariant handled == LookUpAll(replies)[..i]
    {
      var returnedDict := GetDnsForOneName(replies[i]);
      handled := handled + [returnedDict];
      i := i + 1;
    }
  }

  /**
   * Lines 119-123: walk the results in order, stopping at the first one
   * that raised, and split the names into `dns_failed` and `dns_results`.
   */
  method SplitResults(names: seq<string>, handled: seq<Handled>)
    returns (raised: Option<Uncaught>, dnsFailed: seq<string>, dnsResults: Dict)
    requires |handled| == |names|
    ensures FirstRaised(handled) < |handled| <==> raised.Some?
    ensures raised.Some? ==> raised.value == handled[FirstRaised(handled)].error
    ensures raised.None? ==> (dnsFailed, dnsResults) == Partition(names, RecordsOf(handled))
  {
    dnsResults := EmptyDict;
    dnsFailed := [];
    ghost var records := RecordsOf(handled);
    var i := 0;
    while i < |names|
      invariant 0 <= i <= |names|
      invariant forall j :: 0 <= j < i ==> handled[j].Returned?
      invariant (dnsFailed, dnsResults) == Partition(names[..i], records[..i])
    {
      if handled[i].Raised? {
        FirstRaisedAt(handled, i);
        return Some(handled[i].error), dnsFailed, dnsResults;
      }
      PartitionSnoc(names, records, i);
      var returnedDict := handled[i].record;
      if |returnedDict.v4| == 0 {
        dnsFailed := dnsFailed + [names[i]];
      } else {
        dnsResults := Put(dnsResults, names[i], returnedDict);
      }
      i := i + 1;
    }
    FirstRaisedAt(handled, i);
    assert names[..i] == names && records[..i] == records;
    raised := None;
  }

  /** Lines 127-133: the DNSSEC and IPv6 counts over `dns_results`. */
  method CountResults(dnsResults: Dict) returns (dnssecTotal: nat, ipv6Total: nat)
    requires ValidDict(dnsResults)
    ensures dnssecTotal == CountKeys(dnsResults.keys, dnsResults.vals, Signed)
    ensures ipv6Total == CountKeys(dnsResults.keys, dnsResults.vals, HasV6)
    ensures dnssecTotal <= |dnsResults.keys| && ipv6Total <= |dnsResults.keys|
  {
    dnssecTotal, ipv6Total := 0, 0;
    var j := 0;
    while j < |dnsResults.keys|
      invariant 0 <= j <= |dnsResults.keys|
      invariant dnssecTotal == CountKeys(dnsResults.keys[..j], dnsResults.vals, Signed)
      invariant ipv6Total == CountKeys(dnsResults.keys[..j], dnsResults.vals, HasV6)
    {
      var thisName := dnsResults.keys[j];
      assert dnsResults.keys[..j + 1][..j] == dnsResults.keys[..j];
      if dnsResults.vals[thisName].dnssec {
        dnssecTotal := dnssecTotal + 1;
      }
      if |dnsResults.vals[thisName].v6| > 0 {
        ipv6Total := ipv6Total + 1;
      }
      j := j + 1;
    }
    assert dnsResults.keys[..j] == dnsResults.keys;
  }

  /** Lines 139-145: copy the first `subset_size` results into `dns_samples`. */
  method CullResults(dnsResults: Dict, subsetSize: int) returns (dnsSamples: Dict)
    requires ValidDict(dnsResults)
    ensures dnsSamples == Cull(dnsResults, subsetSize)
  {
    var sampleNames := dnsResults.keys[..PySliceEnd(subsetSize, |dnsResults.keys|)];
    dnsSamples := EmptyDict;
    var j := 0;
    while j < |sampleNames|
      invariant 0 <= j <= |sampleNames|
      invariant dnsSamples == CopyKeys(sampleNames[..j], dnsResults)
    {
      var thisName := sampleNames[j];
      assert sampleNames[..j + 1][..j] == sampleNames[..j];
      dnsSamples := Put(dnsSamples, thisName, dnsResults.vals[thisName]);
      j := j + 1;
    }
    assert sampleNames[..j] == sampleNames;
  }

  /** Lines 151-154: the text of dns_failed.txt, one name per line. */
  method FailedFileText(dnsFailed: seq<string>) returns (text: string)
    ensures text == JoinLines(dnsFailed)
  {
    text := "";
    var j := 0;
    while j < |dnsFailed|
      invariant 0 <= j <= |dnsFailed|
      invariant text == JoinLines(dnsFailed[..j])
    {
      JoinLinesSnoc(dnsFailed[..j], dnsFailed[j]);
      assert dnsFailed[..j + 1] == dnsFailed[..j] + [dnsFailed[j]];
      text := text + dnsFailed[j] + "\n";
      j := j + 1;
    }
    assert dnsFailed[..j] == dnsFailed;
  }

  /**
   * Lines 115-154: map the lookup over the names in order, split the
   * results, count, cull and write out the failed names, one per line.
   */
  method ResolveAll(names: seq<string>, replies: seq<ProbeReply>, subsetSize: int) returns (run: Run)
    requires |replies| == |names|
    ensures run == Resolve(names, replies, subsetSize)
  {
    var handled := MapLookups(replies);
    var raised, dnsFailed, dnsResults := SplitResults(names, handled);
    if raised.Some? {
      return Crashed(WorkerRaised(raised.value));
    }
    var dnssecTotal, ipv6Total := CountResults(dnsResults);
    // lines 135-136 divide by these lengths
    if |names| == 0 {
      return Crashed(NoNames);
    }
    if |dnsResults.keys| == 0 {
      return Crashed(NoneResolved);
    }
    var dnsSamples := CullResults(dnsResults, subsetSize);
    var failedText := FailedFileText(dnsFailed);
    return Finished(dnsResults, dnsFailed, dnssecTotal, ipv6Total, dnsSamples, failedText);
  }

  lemma FirstRaisedAt(handled: seq<Handled>, i: nat)
    requires i <= |handled|
    requires forall j :: 0 <= j < i ==> handled[j].Returned?
    requires i < |handled| ==> handled[i].Raised?
    ensures FirstRaised(handled) == i
  {
  }

  // ---------------------------------------------------------------- what a run promises

  /**
   * A run saves nothing exactly when some call raised, there were no
   * names, or no name got an IPv4 address.
   */
  lemma CrashIff(names: seq<string>, replies: seq<ProbeReply>, subsetSize: int)
    requires |replies| == |names|
    ensures Resolve(names, replies, subsetSize).Crashed? <==>
      || (exists i :: 0 <= i < |names| && Interpret(replies[i]).Raised?)
      || |names| == 0
      || (forall i :: 0 <= i < |names| ==> |Interpret(replies[i]).record.v4| == 0)
  {
    var handled := LookUpAll(replies);
    var records := RecordsOf(handled);
    var results := Partition(names, records).1;
    if FirstRaised(handled) == |handled| && |names| > 0 {
      if |results.keys| == 0 {
        forall i | 0 <= i < |names| ensures |Interpret(replies[i]).record.v4| == 0 {
          ResultsExactly(names, records, names[i]);
        }
      } else {
        var x := results.keys[0];
        ResultsExactly(names, records, x);
      }
    }
  }

  /**
   * A finished run splits the names by their "4" lists: failed exactly
   * when a lookup of the name gave none, resolved exactly when one gave
   * some; with distinct names each lands in exactly one of the two.
   */
  lemma FinishedSplitsNames(names: seq<string>, replies: seq<ProbeReply>, subsetSize: int, x: string)
    requires |replies| == |names|
    requires Resolve(names, replies, subsetSize).Finished?
    ensures x in Resolve(names, replies, subsetSize).failed <==>
      exists i :: 0 <= i < |names| && names[i] == x && |Interpret(replies[i]).record.v4| == 0
    ensures x in Resolve(names, replies, subsetSize).results.vals <==>
      exists i :: 0 <= i < |names| && names[i] == x && |Interpret(replies[i]).record.v4| > 0
    ensures (forall i, j :: 0 <= i < j < |names| ==> names[i] != names[j]) ==>
      |Resolve(names, replies, subsetSize).failed| + |Resolve(names, replies, subsetSize).results.keys| == |names|
  {
    var records := RecordsOf(LookUpAll(replies));
    FailedExactly(names, records, x);
    ResultsExactly(names, records, x);
    if forall i, j :: 0 <= i < j < |names| ==> names[i] != names[j] {
      PartitionSizes(names, records);
    }
  }

  /**
   * A finished run's totals count resolved names, so neither exceeds
   * len(dns_results), and its samples are a prefix of the results.
   */
  lemma FinishedTotals(names: seq<string>, replies: seq<ProbeReply>, subsetSize: int)
    requires |replies| == |names|
    requires Resolve(names, replies, subsetSize).Finished?
    ensures var r := Resolve(names, replies, subsetSize);
      && 0 < |r.results.keys| <= |names|
      && r.dnssecTotal <= |r.results.keys|
      && r.ipv6Total <= |r.results.keys|
      && r.samples.keys == r.results.keys[..PySliceEnd(subsetSize, |r.results.keys|)]
      && forall k :: k in r.samples.vals ==> r.samples.vals[k] == r.results.vals[k]
  {
    var r := Resolve(names, replies, subsetSize);
    CullKeepsPrefix(r.results, subsetSize);
    PartitionSizesBound(names, RecordsOf(LookUpAll(replies)));
  }

  /** There are never more results than names. */
  lemma {:induction false} PartitionSizesBound(names: seq<string>, records: seq<DnsRecord>)
    requires |names| == |records|
    ensures |Partition(names, records).1.keys| <= |names|
  {
    if names != [] {
      var n := |names| - 1;
      PartitionSizesBound(names[..n], records[..n]);
    }
  }

  /** Reading dns_failed.txt back line by line gives the failed names, in order. */
  lemma FailedFileReadsBack(names: seq<string>, replies: seq<ProbeReply>, subsetSize: int)
    requires |replies| == |names|
    requires forall i :: 0 <= i < |names| ==> NoBreaks(names[i])
    requires Resolve(names, replies, subsetSize).Finished?
    ensures SplitLines(Resolve(names, replies, subsetSize).failedText) == Resolve(names, replies, subsetSize).failed
  {
    var r := Resolve(names, replies, subsetSize);
    var records := RecordsOf(LookUpAll(replies));
    forall k | 0 <= k < |r.failed| ensures NoBreaks(r.failed[k]) {
      FailedExactly(names, records, r.failed[k]);
    }
    SplitJoin(r.failed);
  }

  // ---------------------------------------------------------------- concrete replies

  /** An address record as `getdns_query` prints it. */
  function AddressRecord(tag: string, data: string): Json
  {
    JObject(map["address_type" := JString(tag), "address_data" := JString(data)])
  }

  lemma AddressRecordFacts(data: string)
    ensures HasTag(AddressRecord("IPv4", data), "IPv4") && !HasTag(AddressRecord("IPv6", data), "IPv4")
    ensures HasTag(AddressRecord("IPv6", data), "IPv6") && !HasTag(AddressRecord("IPv4", data), "IPv6")
    ensures !Malformed(AddressRecord("IPv4", data), "IPv4") && !Malformed(AddressRecord("IPv6", data), "IPv4")
    ensures !Malformed(AddressRecord("IPv6", data), "IPv6")
    ensures AddressRecord("IPv4", data).fields["address_data"] == JString(data)
  {
    assert "IPv4"[3] != "IPv6"[3];
  }

  /**
   * "D" does not need an IPv4 address: an A reply that lists only an IPv6
   * record, with a signed reply tree, and an empty AAAA list give a record
   * with "D" true and "4" empty, so the name is counted as failed.
   */
  lemma DnssecWithoutV4(data: string)
    ensures
      var a := map["just_address_answers" := JArray([AddressRecord("IPv6", data)]),
                   "replies_tree" := JArray([JObject(map["dnssec_status" := JNumber(400.0)])])];
      var aaaa := map["just_address_answers" := JArray([])];
      Interpret(Output([Some(JObject(a)), Some(JObject(aaaa))])) == Returned(DnsRecord([], [], true))
  {
    AddressRecordFacts(data);
    var items := [AddressRecord("IPv6", data)];
    assert FirstMalformed(items, "IPv4") == 1 by { FirstMalformedAt(items, "IPv4", 1); }
    assert items[..1] == items;
  }

  /**
   * A malformed record ends the IPv4 loop: the address before it is kept,
   * "6" stays empty and "D" false, whatever the AAAA reply holds.
   */
  lemma MalformedStopsV4(data: string, aaaa: Option<Json>)
    ensures
      var a := map["just_address_answers" := JArray([AddressRecord("IPv4", data), JNull])];
      Interpret(Output([Some(JObject(a)), aaaa])) == Returned(DnsRecord([JString(data)], [], false))
  {
    AddressRecordFacts(data);
    var items := [AddressRecord("IPv4", data), JNull];
    assert FirstMalformed(items, "IPv4") == 1 by { FirstMalformedAt(items, "IPv4", 1); }
    assert items[..1] == [AddressRecord("IPv4", data)];
  }
}
