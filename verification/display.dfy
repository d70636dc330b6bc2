/**
 The display path of the stand-alone binary (`show_rdata` and
 `show_query_result` in src/main.rs), with printed lines returned instead of
 written to stdout.

 It prints the same per-type data as the library, but chooses arrows
 differently: `show_query_result` passes "=>" to the first answer and "->"
 to every later one, A/AAAA/CNAME lines use the arrow they are given, and
 every HTTPS rdata ignores it and restarts its own "=>" on its first hint.
 */
module Display {
  import opened Wrappers
  import opened Text
  import opened Dns
  import opened Lines
  import opened Records

  /** One line per hint address; the first gets "=>" when `first`, the rest "->". */
  function HintLines(name: string, ips: seq<string>, tag: string, first: bool): seq<Line>
  {
    seq(|ips|, j requires 0 <= j < |ips| => Line(name, Arrow(first && j == 0), Some(tag), ips[j]))
  }

  /** The lines `show_rdata(name, rdata, arrow)` prints. */
  function RdataLines(name: string, rd: RData, arrow: string): (ls: seq<Line>)
    ensures |ls| == RdataCount(rd)
    ensures forall k :: 0 <= k < |ls| ==> ls[k].name == name
    ensures !rd.HTTPS? ==> forall k :: 0 <= k < |ls| ==> ls[k].arrow == arrow && ls[k].tag == None
    ensures rd.A? || rd.AAAA? ==> ls[0].data == rd.ip
    ensures rd.CNAME? ==> IsDotTrimmed(rd.target, ls[0].data)
    ensures rd.HTTPS? ==>
              forall k :: 0 <= k < |ls| ==>
                && ls[k].arrow == Arrow(k == 0)
                && ls[k].tag == Some(EchTag(rd.params))
                && ls[k].data == HintIps(rd.params)[k]
  {
    match rd
    case A(ip) => [Line(name, arrow, None, ip)]
    case AAAA(ip) => [Line(name, arrow, None, ip)]
    case CNAME(target) => [Line(name, arrow, None, TrimEndDots(target))]
    case HTTPS(params) => HintLines(name, HintIps(params), EchTag(params), true)
    case SVCB(_) => []
    case OtherRData => []
  }

  /** The lines one answer prints; an answer without rdata prints nothing. */
  function AnswerLines(name: string, a: Answer, arrow: string): seq<Line>
  {
    if a.data.Some? then RdataLines(name, a.data.value, arrow) else []
  }

  /** The lines of a list of answers, `first` telling whether its head is the
      message's first answer. */
  function QueryLines(name: string, answers: seq<Answer>, first: bool): (ls: seq<Line>)
    ensures forall k :: 0 <= k < |ls| ==> ls[k].name == name
    decreases |answers|
  {
    if |answers| == 0 then []
    else AnswerLines(name, answers[0], Arrow(first)) + QueryLines(name, answers[1..], false)
  }

  /** The display path prints as many lines as the library extracts records. */
  lemma {:induction false} QueryLinesLength(name: string, answers: seq<Answer>, first: bool)
    ensures |QueryLines(name, answers, first)| == |RecordsFrom(name, answers, first)|
    decreases |answers|
  {
    if |answers| > 0 {
      QueryLinesLength(name, answers[1..], false);
    }
  }

  /** The lines `show_query_result` prints: as many as the library extracts
      records, all under the query name, and led by "=>" whenever the first
      answer prints anything. */
  function QueryResultLines(qr: QueryResult): (ls: seq<Line>)
    ensures |ls| == |SimpleRecords(qr)|
    ensures forall k :: 0 <= k < |ls| ==> ls[k].name == qr.name
    ensures |qr.records| > 0 && AnswerCount(qr.records[0]) > 0 ==> |ls| > 0 && ls[0].arrow == FirstArrow
  {
    QueryLinesLength(qr.name, qr.records, true);
    QueryLines(qr.name, qr.records, true)
  }

  lemma {:induction false} QueryLinesAppend(name: string, a: seq<Answer>, b: seq<Answer>, first: bool)
    ensures QueryLines(name, a + b, first) == QueryLines(name, a, first) + QueryLines(name, b, first && |a| == 0)
    decreases |a|
  {
    if |a| == 0 {
      assert a + b == b;
    } else {
      assert (a + b)[0] == a[0];
      assert (a + b)[1..] == a[1..] + b;
      QueryLinesAppend(name, a[1..], b, false);
    }
  }

  lemma QueryLinesSingleton(name: string, a: Answer, first: bool)
    ensures QueryLines(name, [a], first) == AnswerLines(name, a, Arrow(first))
  {
    assert [a][1..] == [];
  }

  /** One more answer appends its own lines. */
  lemma QueryLinesSnoc(name: string, answers: seq<Answer>, i: int)
    requires 0 <= i < |answers|
    ensures QueryLines(name, answers[..i + 1], true) == QueryLines(name, answers[..i], true) + AnswerLines(name, answers[i], Arrow(i == 0))
  {
    assert answers[..i + 1] == answers[..i] + [answers[i]];
    QueryLinesAppend(name, answers[..i], [answers[i]], true);
    QueryLinesSingleton(name, answers[i], i == 0);
  }

  /** Splitting the lines around answer `j`. */
  lemma QueryLinesSplit(name: string, answers: seq<Answer>, j: int)
    requires 0 <= j < |answers|
    ensures QueryLines(name, answers, true) ==
            QueryLines(name, answers[..j], true) + AnswerLines(name, answers[j], Arrow(j == 0)) + QueryLines(name, answers[j + 1..], false)
  {
    var pre, rest, post := answers[..j], answers[j..], answers[j + 1..];
    assert QueryLines(name, answers, true) == QueryLines(name, pre, true) + QueryLines(name, rest, j == 0) by {
      assert answers == pre + rest;
      QueryLinesAppend(name, pre, rest, true);
    }
    assert QueryLines(name, rest, j == 0) == AnswerLines(name, answers[j], Arrow(j == 0)) + QueryLines(name, post, false) by {
      assert rest == [answers[j]] + post;
      QueryLinesAppend(name, [answers[j]], post, j == 0);
      QueryLinesSingleton(name, answers[j], j == 0);
    }
  }

  /** Answer `j` prints `show_rdata` output with "=>" when it is the first answer
      and "->" otherwise, whether or not the first answer had rdata. */
  lemma AnswerLinesSegment(name: string, answers: seq<Answer>, j: int)
    requires 0 <= j < |answers|
    ensures var ls := QueryLines(name, answers, true);
            var off := |QueryLines(name, answers[..j], true)|;
            off + AnswerCount(answers[j]) <= |ls| &&
            ls[off..off + AnswerCount(answers[j])] == AnswerLines(name, answers[j], Arrow(j == 0))
  {
    QueryLinesSplit(name, answers, j);
    var front := QueryLines(name, answers[..j], true);
    var mine := AnswerLines(name, answers[j], Arrow(j == 0));
    var back := QueryLines(name, answers[j + 1..], false);
    assert |mine| == AnswerCount(answers[j]);
    assert (front + mine + back)[|front|..|front| + |mine|] == mine;
  }

  /** When the first answer has no rdata and no answer is an HTTPS record with
      hints, no line is marked "=>": the flag was spent on the silent answer. */
  lemma {:induction false} NoPrimaryAfterSilentStart(name: string, answers: seq<Answer>, first: bool)
    requires |answers| > 0 ==> !first || answers[0].data.None?
    requires forall i :: 0 <= i < |answers| ==> !IsHintedHttps(answers[i])
    ensures forall k :: 0 <= k < |QueryLines(name, answers, first)| ==> QueryLines(name, answers, first)[k].arrow == NextArrow
    decreases |answers|
  {
    if |answers| > 0 {
      var head: seq<Line> := AnswerLines(name, answers[0], Arrow(first));
      assert !IsHintedHttps(answers[0]);
      NoPrimaryAfterSilentStart(name, answers[1..], false);
      var tail: seq<Line> := QueryLines(name, answers[1..], false);
      forall k | 0 <= k < |head + tail|
        ensures (head + tail)[k].arrow == NextArrow
      {
        if k >= |head| {
          assert (head + tail)[k] == tail[k - |head|];
        }
      }
    }
  }

  // ---------------------------------------------------------------------
  // The loops of `show_rdata` and `show_query_result`

  lemma HintLinesAppend(name: string, a: seq<string>, b: seq<string>, tag: string, first: bool)
    ensures HintLines(name, a + b, tag, first) == HintLines(name, a, tag, first) + HintLines(name, b, tag, first && |a| == 0)
  {
    var l, r := HintLines(name, a + b, tag, first), HintLines(name, a, tag, first) + HintLines(name, b, tag, first && |a| == 0);
    assert |l| == |r|;
    forall k | 0 <= k < |l|
      ensures l[k] == r[k]
    {
      if k >= |a| {
        assert (a + b)[k] == b[k - |a|];
      }
    }
  }

  /** The innermost loop of the HTTPS arm: one line per address, marked with
      the local flag, which is cleared after each. */
  method PrintHints(name: string, ips: seq<string>, tag: string, isFirst: bool)
    returns (printed: seq<Line>, isFirstOut: bool)
    ensures printed == HintLines(name, ips, tag, isFirst)
    ensures isFirstOut == (isFirst && |ips| == 0)
  {
    printed, isFirstOut := [], isFirst;
    var m := 0;
    while m < |ips|
      invariant 0 <= m <= |ips|
      invariant isFirstOut == (isFirst && m == 0)
      invariant printed == HintLines(name, ips[..m], tag, isFirst)
    {
      HintLinesAppend(name, ips[..m], [ips[m]], tag, isFirst);
      assert ips[..m + 1] == ips[..m] + [ips[m]];
      var arrow := Arrow(isFirstOut);
      printed := printed + [Line(name, arrow, Some(tag), ips[m])];
      isFirstOut := false;
      m := m + 1;
    }
    assert ips[..m] == ips;
  }

  /** `show_rdata`, loop by loop. */
  method ShowRdata(name: string, rd: RData, arrow: string) returns (lines: seq<Line>)
    ensures lines == RdataLines(name, rd, arrow)
  {
    lines := [];
    match rd {
      case A(ip) =>
        lines := [Line(name, arrow, None, ip)];
      case AAAA(ip) =>
        lines := [Line(name, arrow, None, ip)];
      case CNAME(target) =>
        lines := [Line(name, arrow, None, TrimEndDots(target))];
      case HTTPS(params) =>
        var tag := EchTag(params);
        var isFirst := true;
        ghost var done: seq<string> := [];
        var k := 0;
        while k < |params|
          invariant 0 <= k <= |params|
          invariant done == HintIps(params[..k])
          invariant isFirst == (|done| == 0)
          invariant lines == HintLines(name, done, tag, true)
        {
          var v := params[k].1;
          HintIpsSnoc(params, k);
          HintLinesAppend(name, done, ValueIps(v), tag, true);
          match v {
            case Ipv4Hint(ips) =>
              var more;
              more, isFirst := PrintHints(name, ips, tag, isFirst);
              lines := lines + more;
            case Ipv6Hint(ips) =>
              var more;
              more, isFirst := PrintHints(name, ips, tag, isFirst);
              lines := lines + more;
            case OtherValue =>
          }
          done := done + ValueIps(v);
          k := k + 1;
        }
        assert params[..k] == params;
      case SVCB(_) =>
      case OtherRData =>
    }
  }

  /** `show_query_result`, loop by loop: the arrow flag is cleared after every
      answer, including one without rdata. */
  method ShowQueryResult(qr: QueryResult) returns (lines: seq<Line>)
    ensures lines == QueryResultLines(qr)
  {
    lines := [];
    var isFirst := true;
    var i := 0;
    while i < |qr.records|
      invariant 0 <= i <= |qr.records|
      invariant isFirst == (i == 0)
      invariant lines == QueryLines(qr.name, qr.records[..i], true)
    {
      var a := qr.records[i];
      var arrow := Arrow(isFirst);
      if a.data.Some? {
        var more := ShowRdata(qr.name, a.data.value, arrow);
        lines := lines + more;
      }
      isFirst := false;
      QueryLinesSnoc(qr.name, qr.records, i);
      i := i + 1;
    }
    assert qr.records[..i] == qr.records;
  }
}
