/**
 Abstract stand-ins for the decoded DNS message produced by the protocol
 decoder (trust_dns_proto). Addresses and domain names are opaque strings:
 their textual form comes from the decoder's `to_string`, which is not part
 of this model.
 */
module Dns {
  import opened Wrappers

  /** Service-parameter keys of an SVCB/HTTPS record (section 14.3.2 of RFC 9460). */
  datatype SvcParamKey =
    | Mandatory
    | Alpn
    | NoDefaultAlpn
    | Port
    | Ipv4HintKey
    | EchConfig
    | Ipv6HintKey
    | OtherKey(code: nat)

  /** Service-parameter values; only the address hints are interpreted. */
  datatype SvcParamValue =
    | Ipv4Hint(ips: seq<string>)
    | Ipv6Hint(ips: seq<string>)
    | OtherValue

  type SvcParam = (SvcParamKey, SvcParamValue)

  /** Resource data of one answer. SVCB is kept apart from HTTPS because the
      extractor matches only HTTPS. */
  datatype RData =
    | A(ip: string)
    | AAAA(ip: string)
    | CNAME(target: string)
    | HTTPS(params: seq<SvcParam>)
    | SVCB(params: seq<SvcParam>)
    | OtherRData

  /** One answer record; `data` is `None` when the record carries no rdata. */
  datatype Answer = Answer(data: Option<RData>)

  datatype Query = Query(name: string)

  /** A successfully decoded message: its question and answer sections. */
  datatype Message = Message(queries: seq<Query>, answers: seq<Answer>)

  /** What `process` hands on: the query name and the untouched answers. */
  datatype QueryResult = QueryResult(name: string, records: seq<Answer>)

  const TagHttps: string := "HTTPS"
  const TagHttpsEch: string := "HTTPS ECH"

  /** The addresses one parameter value contributes. */
  function ValueIps(v: SvcParamValue): seq<string>
  {
    match v
    case Ipv4Hint(ips) => ips
    case Ipv6Hint(ips) => ips
    case OtherValue => []
  }

  /** All hint addresses, in parameter order and then in list order. */
  function HintIps(params: seq<SvcParam>): seq<string>
  {
    if |params| == 0 then [] else HintIps(params[..|params| - 1]) + ValueIps(params[|params| - 1].1)
  }

  /** Some parameter key is the Encrypted Client Hello configuration. */
  predicate HasEch(params: seq<SvcParam>)
  {
    exists k :: 0 <= k < |params| && params[k].0 == EchConfig
  }

  /** The tag attached to every hint of one HTTPS record. */
  function EchTag(params: seq<SvcParam>): (tag: string)
    ensures tag == TagHttpsEch <==> HasEch(params)
    ensures tag == TagHttps <==> !HasEch(params)
  {
    if HasEch(params) then TagHttpsEch else TagHttps
  }

  /** An HTTPS answer that lists at least one address hint. */
  predicate IsHintedHttps(a: Answer)
  {
    a.data.Some? && a.data.value.HTTPS? && |HintIps(a.data.value.params)| > 0
  }

  /** Hints of concatenated parameter lists are concatenated hints. */
  lemma {:induction false} HintIpsAppend(a: seq<SvcParam>, b: seq<SvcParam>)
    ensures HintIps(a + b) == HintIps(a) + HintIps(b)
    decreases |b|
  {
    if |b| == 0 {
      assert a + b == a;
    } else {
      var b' := b[..|b| - 1];
      assert (a + b)[..|a + b| - 1] == a + b';
      assert (a + b)[|a + b| - 1] == b[|b| - 1];
      HintIpsAppend(a, b');
    }
  }

  /** One more parameter appends its own addresses. */
  lemma HintIpsSnoc(params: seq<SvcParam>, k: int)
    requires 0 <= k < |params|
    ensures HintIps(params[..k + 1]) == HintIps(params[..k]) + ValueIps(params[k].1)
  {
    assert params[..k + 1][..k] == params[..k];
  }

  /** An address is a hint exactly when some parameter value lists it. */
  lemma {:induction false} HintIpsMembership(params: seq<SvcParam>, ip: string)
    ensures ip in HintIps(params) <==> exists k :: 0 <= k < |params| && ip in ValueIps(params[k].1)
    decreases |params|
  {
    if |params| > 0 {
      var init := params[..|params| - 1];
      HintIpsMembership(init, ip);
      if ip in HintIps(init) {
        var k :| 0 <= k < |init| && ip in ValueIps(init[k].1);
        assert params[k] == init[k];
      }
      if exists k :: 0 <= k < |params| && ip in ValueIps(params[k].1) {
        var k :| 0 <= k < |params| && ip in ValueIps(params[k].1);
        if k < |init| {
          assert init[k] == params[k];
        }
      }
    }
  }
}
