/**
 How the two display paths relate. They print the same number of lines with
 the same names, tags and data, and differ only in where "=>" appears: the
 library marks only the first record of the first answer, the binary also
 marks the first hint of every later HTTPS answer.
 */
module Divergence {
  import opened Wrappers
  import opened Dns
  import opened Lines
  import opened Records
  import opened Display

  lemma ShowHintRecords(name: string, ips: seq<string>, tag: string, first: bool)
    ensures ShowRecords(HintRecords(name, ips, tag, first)) == HintLines(name, ips, tag, first)
  {
  }

  /** Two concatenations whose first parts have equal length are equal exactly
      when both parts are. */
  lemma ConcatEqual<T>(x1: seq<T>, y1: seq<T>, x2: seq<T>, y2: seq<T>)
    requires |x1| == |x2|
    ensures x1 + y1 == x2 + y2 <==> x1 == x2 && y1 == y2
  {
    if x1 + y1 == x2 + y2 {
      assert x1 == (x1 + y1)[..|x1|] && x2 == (x2 + y2)[..|x2|];
      assert y1 == (x1 + y1)[|x1|..] && y2 == (x2 + y2)[|x2|..];
    }
  }

  /** One answer prints the same lines on both paths unless it is an HTTPS
      answer with hints that is not the first answer. */
  lemma AnswerAgreement(name: string, a: Answer, first: bool)
    ensures ShowRecords(AnswerRecords(name, a, first)) == AnswerLines(name, a, Arrow(first))
            <==> !(IsHintedHttps(a) && !first)
  {
    if a.data.Some? && a.data.value.HTTPS? {
      var params := a.data.value.params;
      var ips, tag := HintIps(params), EchTag(params);
      ShowHintRecords(name, ips, tag, first);
      if IsHintedHttps(a) && !first {
        var lib, bin := HintLines(name, ips, tag, first), HintLines(name, ips, tag, true);
        assert bin[0] == Line(name, Arrow(true), Some(tag), ips[0]);
        assert lib[0].arrow == NextArrow && bin[0].arrow == FirstArrow;
        assert NextArrow[0] != FirstArrow[0];
      }
    }
  }

  /** Over a list of answers: both paths agree exactly when no HTTPS answer
      with hints sits anywhere but at the very first position. */
  lemma {:induction false} ShowAgreement(name: string, answers: seq<Answer>, first: bool)
    ensures ShowRecords(RecordsFrom(name, answers, first)) == QueryLines(name, answers, first)
            <==> forall i :: 0 <= i < |answers| ==> !(IsHintedHttps(answers[i]) && !(first && i == 0))
    decreases |answers|
  {
    if |answers| > 0 {
      var a, rest := answers[0], answers[1..];
      var x1 := ShowRecords(AnswerRecords(name, a, first));
      var y1 := ShowRecords(RecordsFrom(name, rest, false));
      var x2 := AnswerLines(name, a, Arrow(first));
      var y2 := QueryLines(name, rest, false);
      ShowRecordsAppend(AnswerRecords(name, a, first), RecordsFrom(name, rest, false));
      assert |x1| == |x2|;
      ConcatEqual(x1, y1, x2, y2);
      AnswerAgreement(name, a, first);
      ShowAgreement(name, rest, false);
      HeadAndRest(answers, first);
    }
  }

  /** "No misplaced hinted HTTPS answer" splits into the head and the rest. */
  lemma HeadAndRest(answers: seq<Answer>, first: bool)
    requires |answers| > 0
    ensures (forall i :: 0 <= i < |answers| ==> !(IsHintedHttps(answers[i]) && !(first && i == 0)))
            <==> !(IsHintedHttps(answers[0]) && !first) && forall i :: 0 <= i < |answers[1..]| ==> !IsHintedHttps(answers[1..][i])
  {
    var rest := answers[1..];
    if forall i :: 0 <= i < |rest| ==> !IsHintedHttps(rest[i]) {
      forall i | 1 <= i < |answers|
        ensures !IsHintedHttps(answers[i])
      {
        assert answers[i] == rest[i - 1];
      }
    }
  }

  /** The library's `show` and the binary's `show_query_result` print the same
      lines exactly when no answer after the first is an HTTPS record with hints. */
  lemma LibMainAgree(qr: QueryResult)
    ensures ShowLines(qr) == QueryResultLines(qr)
            <==> forall i :: 1 <= i < |qr.records| ==> !IsHintedHttps(qr.records[i])
  {
    ShowAgreement(qr.name, qr.records, true);
  }

  /** Both paths always print the same number of lines. */
  lemma LibMainSameLength(qr: QueryResult)
    ensures |ShowLines(qr)| == |QueryResultLines(qr)|
  {
    QueryLinesLength(qr.name, qr.records, true);
  }

  /** The response used below: an A answer followed by an HTTPS answer with one
      IPv4 hint and no ECH key. */
  function ExampleResponse(): QueryResult
  {
    QueryResult("example.com", [
      Answer(Some(A("192.0.2.1"))),
      Answer(Some(HTTPS([(Ipv4HintKey, Ipv4Hint(["192.0.2.2"]))])))])
  }

  lemma ExampleHttpsAnswer()
    ensures var https := ExampleResponse().records[1];
            && AnswerRecords("example.com", https, false) == [SimpleRecord("example.com", false, "192.0.2.2", Some(TagHttps))]
            && AnswerLines("example.com", https, NextArrow) == [Line("example.com", FirstArrow, Some(TagHttps), "192.0.2.2")]
  {
    var params := [(Ipv4HintKey, Ipv4Hint(["192.0.2.2"]))];
    assert params[..0] == [];
    assert HintIps(params) == ["192.0.2.2"];
    assert !HasEch(params);
  }

  /** The texts of the example's lines. */
  lemma RenderAddressLine()
    ensures Render(Line("example.com", FirstArrow, None, "192.0.2.1")) == "example.com => 192.0.2.1"
  {
  }

  lemma RenderPrimaryHintLine()
    ensures Render(Line("example.com", FirstArrow, Some(TagHttps), "192.0.2.2")) == "example.com => HTTPS 192.0.2.2"
  {
  }

  lemma RenderSecondaryHintLine()
    ensures Render(Line("example.com", NextArrow, Some(TagHttps), "192.0.2.2")) == "example.com -> HTTPS 192.0.2.2"
  {
  }

  lemma ExampleLibRecords()
    ensures SimpleRecords(ExampleResponse()) == [
              SimpleRecord("example.com", true, "192.0.2.1", None),
              SimpleRecord("example.com", false, "192.0.2.2", Some(TagHttps))]
  {
    var qr := ExampleResponse();
    ExampleHttpsAnswer();
    assert qr.records[1..] == [qr.records[1]];
    assert qr.records[1..][1..] == [];
  }

  lemma ExampleLibLines()
    ensures Print(ShowLines(ExampleResponse())) == ["example.com => 192.0.2.1", "example.com -> HTTPS 192.0.2.2"]
  {
    ExampleLibRecords();
    var r0 := SimpleRecord("example.com", true, "192.0.2.1", None);
    var r1 := SimpleRecord("example.com", false, "192.0.2.2", Some(TagHttps));
    assert ShowLines(ExampleResponse()) == [RecordLine(r0), RecordLine(r1)];
    RenderAddressLine();
    RenderSecondaryHintLine();
  }

  lemma ExampleBinStructured()
    ensures QueryResultLines(ExampleResponse()) == [
              Line("example.com", FirstArrow, None, "192.0.2.1"),
              Line("example.com", FirstArrow, Some(TagHttps), "192.0.2.2")]
  {
    var qr := ExampleResponse();
    ExampleHttpsAnswer();
    assert qr.records[1..] == [qr.records[1]];
    assert qr.records[1..][1..] == [];
  }

  lemma ExampleBinLines()
    ensures Print(QueryResultLines(ExampleResponse())) == ["example.com => 192.0.2.1", "example.com => HTTPS 192.0.2.2"]
  {
    ExampleBinStructured();
    RenderAddressLine();
    RenderPrimaryHintLine();
  }

  /** On that response the library prints "->" on the hint line and the binary "=>". */
  lemma DivergenceExample()
    ensures Print(ShowLines(ExampleResponse()))[1] == "example.com -> HTTPS 192.0.2.2"
    ensures Print(QueryResultLines(ExampleResponse()))[1] == "example.com => HTTPS 192.0.2.2"
    ensures ShowLines(ExampleResponse()) != QueryResultLines(ExampleResponse())
  {
    ExampleLibLines();
    ExampleBinLines();
  }
}
