/**
 The record extractor of the library (`QueryResult::to_simple_records`) and
 the line format of `QueryResult::show`.

 `RecordsFrom` is the reference definition: the in-order concatenation of
 every answer's contribution, where only the contribution of the first
 answer may carry the primary flag. `ToSimpleRecords` transcribes the Rust
 loops, with their single mutable `is_first`, and is proved equal to it.
 */
module Records {
  import opened Wrappers
  import opened Text
  import opened Dns
  import opened Lines

  datatype SimpleRecord = SimpleRecord(name: string, isFirst: bool, data: string, tag: Option<string>)

  /** How many records one rdata yields. */
  function RdataCount(rd: RData): nat
  {
    match rd
    case A(_) => 1
    case AAAA(_) => 1
    case CNAME(_) => 1
    case HTTPS(params) => |HintIps(params)|
    case SVCB(_) => 0
    case OtherRData => 0
  }

  /** How many records one answer yields; an answer without rdata yields none. */
  function AnswerCount(a: Answer): nat
  {
    if a.data.Some? then RdataCount(a.data.value) else 0
  }

  /** One record per hint address; only the first may be primary, and only when `first`. */
  function HintRecords(name: string, ips: seq<string>, tag: string, first: bool): seq<SimpleRecord>
  {
    seq(|ips|, j requires 0 <= j < |ips| => SimpleRecord(name, first && j == 0, ips[j], Some(tag)))
  }

  /** The records one answer contributes, `first` telling whether it is the first answer. */
  function AnswerRecords(name: string, a: Answer, first: bool): (rs: seq<SimpleRecord>)
    ensures |rs| == AnswerCount(a)
    ensures forall k :: 0 <= k < |rs| ==> rs[k].name == name
    ensures forall k :: 0 <= k < |rs| ==> (rs[k].isFirst <==> first && k == 0)
    ensures a.data.Some? && (a.data.value.A? || a.data.value.AAAA?) ==>
              rs[0].data == a.data.value.ip && rs[0].tag == None
    ensures a.data.Some? && a.data.value.CNAME? ==>
              IsDotTrimmed(a.data.value.target, rs[0].data) && rs[0].tag == None
    ensures a.data.Some? && a.data.value.HTTPS? ==>
              forall k :: 0 <= k < |rs| ==>
                rs[k].data == HintIps(a.data.value.params)[k] && rs[k].tag == Some(EchTag(a.data.value.params))
  {
    match a.data
    case None => []
    case Some(rd) =>
      match rd
      case A(ip) => [SimpleRecord(name, first, ip, None)]
      case AAAA(ip) => [SimpleRecord(name, first, ip, None)]
      case CNAME(target) => [SimpleRecord(name, first, TrimEndDots(target), None)]
      case HTTPS(params) => HintRecords(name, HintIps(params), EchTag(params), first)
      case SVCB(_) => []
      case OtherRData => []
  }

  /** The records of a list of answers, `first` telling whether its head is the
      message's first answer. */
  function RecordsFrom(name: string, answers: seq<Answer>, first: bool): (rs: seq<SimpleRecord>)
    ensures |answers| == 0 ==> rs == []
    ensures forall k :: 0 <= k < |rs| ==> rs[k].name == name
    ensures forall k :: 0 <= k < |rs| ==>
              (rs[k].isFirst <==> k == 0 && first && |answers| > 0 && AnswerCount(answers[0]) > 0)
    decreases |answers|
  {
    if |answers| == 0 then []
    else AnswerRecords(name, answers[0], first) + RecordsFrom(name, answers[1..], false)
  }

  /** The output of `to_simple_records`. */
  function SimpleRecords(qr: QueryResult): seq<SimpleRecord>
  {
    RecordsFrom(qr.name, qr.records, true)
  }

  /** Records of concatenated answer lists are concatenated records. */
  lemma {:induction false} RecordsFromAppend(name: string, a: seq<Answer>, b: seq<Answer>, first: bool)
    ensures RecordsFrom(name, a + b, first) == RecordsFrom(name, a, first) + RecordsFrom(name, b, first && |a| == 0)
    decreases |a|
  {
    if |a| == 0 {
      assert a + b == b;
    } else {
      assert (a + b)[0] == a[0];
      assert (a + b)[1..] == a[1..] + b;
      RecordsFromAppend(name, a[1..], b, false);
    }
  }

  /** One more answer appends its own contribution. */
  lemma RecordsFromSnoc(name: string, answers: seq<Answer>, i: int)
    requires 0 <= i < |answers|
    ensures RecordsFrom(name, answers[..i + 1], true) == RecordsFrom(name, answers[..i], true) + AnswerRecords(name, answers[i], i == 0)
  {
    assert answers[..i + 1] == answers[..i] + [answers[i]];
    RecordsFromAppend(name, answers[..i], [answers[i]], true);
    assert [answers[i]][1..] == [];
  }

  /** Answer `j` contributes exactly its own records, at the offset reached by
      the answers before it: the output is the in-order concatenation of the
      per-answer contributions. */
  lemma AnswerSegment(name: string, answers: seq<Answer>, j: int)
    requires 0 <= j < |answers|
    ensures var rs := RecordsFrom(name, answers, true);
            var off := |RecordsFrom(name, answers[..j], true)|;
            off + AnswerCount(answers[j]) <= |rs| &&
            rs[off..off + AnswerCount(answers[j])] == AnswerRecords(name, answers[j], j == 0)
  {
    var pre, rest := answers[..j], answers[j..];
    assert answers == pre + rest;
    RecordsFromAppend(name, pre, rest, true);
    assert rest == [answers[j]] + answers[j + 1..];
    RecordsFromAppend(name, [answers[j]], answers[j + 1..], j == 0);
    assert [answers[j]][1..] == [];
  }

  /** An answer without usable rdata contributes nothing: appending it leaves the output unchanged. */
  lemma SilentAnswer(name: string, answers: seq<Answer>, a: Answer, first: bool)
    requires AnswerCount(a) == 0
    ensures RecordsFrom(name, answers + [a], first) == RecordsFrom(name, answers, first)
  {
    RecordsFromAppend(name, answers, [a], first);
    assert [a][1..] == [];
  }

  /** The primary record: at most one, at index 0, from the first answer, and
      none at all when the first answer contributes nothing. */
  lemma PrimaryRecord(qr: QueryResult)
    ensures var rs := SimpleRecords(qr);
            forall k :: 0 <= k < |rs| ==>
              (rs[k].isFirst <==> k == 0 && AnswerCount(qr.records[0]) > 0)
    ensures var rs := SimpleRecords(qr);
            |rs| > 0 && rs[0].isFirst ==> rs[0] == AnswerRecords(qr.name, qr.records[0], true)[0]
  {
    if |qr.records| > 0 {
      assert SimpleRecords(qr) == AnswerRecords(qr.name, qr.records[0], true) + RecordsFrom(qr.name, qr.records[1..], false);
    }
  }

  // ---------------------------------------------------------------------
  // The loops of `to_simple_records`

  /** Hint records of concatenated address lists. */
  lemma HintRecordsAppend(name: string, a: seq<string>, b: seq<string>, tag: string, first: bool)
    ensures HintRecords(name, a + b, tag, first) == HintRecords(name, a, tag, first) + HintRecords(name, b, tag, first && |a| == 0)
  {
    var l, r := HintRecords(name, a + b, tag, first), HintRecords(name, a, tag, first) + HintRecords(name, b, tag, first && |a| == 0);
    assert |l| == |r|;
    forall k | 0 <= k < |l|
      ensures l[k] == r[k]
    {
      if k >= |a| {
        assert (a + b)[k] == b[k - |a|];
      }
    }
  }

  /** The innermost loop: one record per address, clearing the flag after each.
      The records are returned rather than pushed onto the caller's vector. */
  method PushHintRecords(name: string, ips: seq<string>, tag: string, isFirst: bool)
    returns (pushed: seq<SimpleRecord>, isFirstOut: bool)
    ensures pushed == HintRecords(name, ips, tag, isFirst)
    ensures isFirstOut == (isFirst && |ips| == 0)
  {
    pushed, isFirstOut := [], isFirst;
    var m := 0;
    while m < |ips|
      invariant 0 <= m <= |ips|
      invariant isFirstOut == (isFirst && m == 0)
      invariant pushed == HintRecords(name, ips[..m], tag, isFirst)
    {
      HintRecordsAppend(name, ips[..m], [ips[m]], tag, isFirst);
      assert ips[..m + 1] == ips[..m] + [ips[m]];
      pushed := pushed + [SimpleRecord(name, isFirstOut, ips[m], Some(tag))];
      isFirstOut := false;
      m := m + 1;
    }
    assert ips[..m] == ips;
  }

  /** The HTTPS arm: walk the parameters in order and emit a record for every
      address of every Ipv4Hint or Ipv6Hint value. */
  method PushHttpsRecords(name: string, params: seq<SvcParam>, isFirst: bool)
    returns (pushed: seq<SimpleRecord>, isFirstOut: bool)
    ensures pushed == HintRecords(name, HintIps(params), EchTag(params), isFirst)
    ensures isFirstOut == (isFirst && |HintIps(params)| == 0)
  {
    var tag := EchTag(params);
    pushed, isFirstOut := [], isFirst;
    ghost var done: seq<string> := [];
    var k := 0;
    while k < |params|
      invariant 0 <= k <= |params|
      invariant done == HintIps(params[..k])
      invariant isFirstOut == (isFirst && |done| == 0)
      invariant pushed == HintRecords(name, done, tag, isFirst)
    {
      var v := params[k].1;
      HintIpsSnoc(params, k);
      HintRecordsAppend(name, done, ValueIps(v), tag, isFirst);
      match v {
        case Ipv4Hint(ips) =>
          var more;
          more, isFirstOut := PushHintRecords(name, ips, tag, isFirstOut);
          pushed := pushed + more;
        case Ipv6Hint(ips) =>
          var more;
          more, isFirstOut := PushHintRecords(name, ips, tag, isFirstOut);
          pushed := pushed + more;
        case OtherValue =>
      }
      done := done + ValueIps(v);
      k := k + 1;
    }
    assert params[..k] == params;
  }

  /** `to_simple_records`, loop by loop. */
  method ToSimpleRecords(qr: QueryResult) returns (result: seq<SimpleRecord>)
    ensures result == SimpleRecords(qr)
  {
    result := [];
    var isFirst := true;
    var i := 0;
    while i < |qr.records|
      invariant 0 <= i <= |qr.records|
      invariant isFirst == (i == 0)
      invariant result == RecordsFrom(qr.name, qr.records[..i], true)
    {
      var r := qr.records[i];
      ghost var before := result;
      if r.data.Some? {
        match r.data.value {
          case A(ip) =>
            result := result + [SimpleRecord(qr.name, isFirst, ip, None)];
          case AAAA(ip) =>
            result := result + [SimpleRecord(qr.name, isFirst, ip, None)];
          case CNAME(target) =>
            result := result + [SimpleRecord(qr.name, isFirst, TrimEndDots(target), None)];
          case HTTPS(params) =>
            var more;
            more, isFirst := PushHttpsRecords(qr.name, params, isFirst);
            result := result + more;
          case SVCB(_) =>
          case OtherRData =>
        }
      }
      assert result == before + AnswerRecords(qr.name, r, i == 0);
      isFirst := false;
      RecordsFromSnoc(qr.name, qr.records, i);
      i := i + 1;
    }
    assert qr.records[..i] == qr.records;
  }

  // ---------------------------------------------------------------------
  // `QueryResult::show`

  /** The printed form of one record: "=>" for the primary record, "->" otherwise. */
  function RecordLine(r: SimpleRecord): Line
  {
    Line(r.name, Arrow(r.isFirst), r.tag, r.data)
  }

  function ShowRecords(rs: seq<SimpleRecord>): seq<Line>
  {
    seq(|rs|, i requires 0 <= i < |rs| => RecordLine(rs[i]))
  }

  /** The lines `show` prints, one per extracted record, carrying its name, tag
      and data, with "=>" exactly on the records flagged primary. */
  function ShowLines(qr: QueryResult): (ls: seq<Line>)
    ensures |ls| == |SimpleRecords(qr)|
    ensures var rs := SimpleRecords(qr);
            forall k :: 0 <= k < |ls| ==>
              && ls[k].name == rs[k].name
              && ls[k].tag == rs[k].tag
              && ls[k].data == rs[k].data
              && (ls[k].arrow == FirstArrow <==> rs[k].isFirst)
  {
    ShowRecords(SimpleRecords(qr))
  }

  lemma ShowRecordsAppend(a: seq<SimpleRecord>, b: seq<SimpleRecord>)
    ensures ShowRecords(a + b) == ShowRecords(a) + ShowRecords(b)
  {
    var l, r := ShowRecords(a + b), ShowRecords(a) + ShowRecords(b);
    forall k | 0 <= k < |l|
      ensures l[k] == r[k]
    {
      if k >= |a| {
        assert (a + b)[k] == b[k - |a|];
      }
    }
  }

  /** `show` prints exactly one line per record, with "=>" on the primary record
      only, so at most once and only on line 0. */
  lemma ShowArrows(qr: QueryResult)
    ensures |ShowLines(qr)| == |SimpleRecords(qr)|
    ensures var ls, rs := ShowLines(qr), SimpleRecords(qr);
            forall k :: 0 <= k < |ls| ==>
              && ls[k].name == qr.name
              && ls[k].tag == rs[k].tag
              && ls[k].data == rs[k].data
              && (ls[k].arrow == FirstArrow <==> k == 0 && AnswerCount(qr.records[0]) > 0)
              && (ls[k].arrow == NextArrow <==> !(k == 0 && AnswerCount(qr.records[0]) > 0))
  {
    PrimaryRecord(qr);
  }
}
