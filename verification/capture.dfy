/**
 The post-decode half of `process` (identical in src/lib.rs and src/main.rs).
 The wire decoder `Message::from_bytes` is foreign code, so it is a
 parameter: a total function from the payload bytes to a decoded message or
 `None` for a decode error (which the source only logs).
 */
module Capture {
  import opened Wrappers
  import opened Text
  import opened Dns

  newtype byte = x: int | 0 <= x < 256

  /** 14-byte Ethernet + 20-byte IPv4 + 8-byte UDP header skipped before decoding. */
  const HeaderLength: nat := 42

  /** A decoded message becomes an observation only if it has a question; the
      observation's name is the first question's name with every trailing dot
      removed, and its records are all the answers, unchanged. */
  function Observe(msg: Message): (r: Option<QueryResult>)
    ensures r.None? <==> |msg.queries| == 0
    ensures r.Some? ==> IsDotTrimmed(msg.queries[0].name, r.value.name)
    ensures r.Some? ==> r.value.records == msg.answers
  {
    if |msg.queries| == 0 then None
    else Some(QueryResult(TrimEndDots(msg.queries[0].name), msg.answers))
  }

  /** `process(packet)`. The slice `packet[42..]` panics on a shorter frame and
      nothing in the source checks the length first; the model excludes that
      panic path with the precondition. */
  function Process(packet: seq<byte>, decode: seq<byte> -> Option<Message>): (r: Option<QueryResult>)
    requires |packet| >= HeaderLength
    ensures r.Some? <==> decode(packet[HeaderLength..]).Some? && |decode(packet[HeaderLength..]).value.queries| > 0
    ensures r.Some? ==> r == Observe(decode(packet[HeaderLength..]).value)
  {
    match decode(packet[HeaderLength..])
    case Some(msg) => Observe(msg)
    case None => None
  }

  /** The observed name never ends in a dot, and is already in trimmed form. */
  lemma ObservedNameTrimmed(msg: Message)
    requires |msg.queries| > 0
    ensures var name := Observe(msg).value.name;
            (|name| == 0 || name[|name| - 1] != '.') && TrimEndDots(name) == name
  {
    TrimEndDotsIdempotent(msg.queries[0].name);
  }

  /** The root query "." and any all-dot name are observed under the empty name. */
  lemma RootNameBecomesEmpty(msg: Message)
    requires |msg.queries| > 0 && AllDots(msg.queries[0].name)
    ensures Observe(msg).value.name == ""
  {
    assert IsDotTrimmed(msg.queries[0].name, "");
    DotTrimmedUnique(msg.queries[0].name, "");
  }
}
