/**
 Text helpers shared by the extractor and the display path. The only string
 operation the core performs itself is `trim_end_matches('.')`, which removes
 EVERY trailing '.', not just the single root-label dot.
 */
module Text {

  /** Every character of `s` is a '.'. */
  predicate AllDots(s: string)
  {
    forall k :: 0 <= k < |s| ==> s[k] == '.'
  }

  /** `t` is `s` with its whole run of trailing dots removed: a prefix of `s`
      followed in `s` only by dots, and itself not ending in a dot. */
  predicate IsDotTrimmed(s: string, t: string)
  {
    && |t| <= |s|
    && t == s[..|t|]
    && AllDots(s[|t|..])
    && (|t| == 0 || t[|t| - 1] != '.')
  }

  /** Rust's `s.trim_end_matches('.')`. */
  function TrimEndDots(s: string): (r: string)
    ensures IsDotTrimmed(s, r)
    decreases |s|
  {
    if |s| > 0 && s[|s| - 1] == '.' then TrimEndDots(s[..|s| - 1]) else s
  }

  /** The trimmed form is unique, so `IsDotTrimmed` is an independent
      characterisation of `TrimEndDots`. */
  lemma {:induction false} DotTrimmedUnique(s: string, t: string)
    requires IsDotTrimmed(s, t)
    ensures t == TrimEndDots(s)
    decreases |s|
  {
    if |s| > 0 && s[|s| - 1] == '.' {
      assert |t| < |s|;
      var s' := s[..|s| - 1];
      assert s'[|t|..] == s[|t|..][..|s| - 1 - |t|];
      assert IsDotTrimmed(s', t);
      DotTrimmedUnique(s', t);
    } else {
      assert |t| == |s|;
    }
  }

  /** Trimming twice is trimming once. */
  lemma TrimEndDotsIdempotent(s: string)
    ensures TrimEndDots(TrimEndDots(s)) == TrimEndDots(s)
  {
    var r := TrimEndDots(s);
    assert IsDotTrimmed(r, r);
    DotTrimmedUnique(r, r);
  }
}
