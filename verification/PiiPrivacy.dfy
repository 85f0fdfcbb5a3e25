/** What masked output can still depend on. The gateway promises that masking is irreversible: two
    conversations that agree outside their redacted spans, and repeat redacted values at the same
    places, mask to the same text, whatever the values are. */
module PiiPrivacy {
  import opened PiiSelection
  import opened PiiMasking

  /** Same types in the same order, and the same repetitions of values. */
  ghost predicate SamePattern(a: seq<Candidate>, b: seq<Candidate>)
  {
    && |a| == |b|
    && (forall i | 0 <= i < |a| :: a[i].kind == b[i].kind)
    && (forall i, j | 0 <= i < |a| && 0 <= j < |a| && a[i].kind == a[j].kind ::
          a[i].raw == a[j].raw <==> b[i].raw == b[j].raw)
  }

  lemma {:induction false} SamePatternPrefix(a: seq<Candidate>, b: seq<Candidate>, n: nat)
    requires SamePattern(a, b) && n <= |a|
    ensures SamePattern(a[..n], b[..n])
  {
  }

  /** The values of one type are numbered alike: spans at the same place hold the same number. */
  ghost predicate NumberedAlike(a: seq<Candidate>, b: seq<Candidate>, t: PiiType)
    requires |a| == |b|
  {
    && |Distinct(a, t)| == |Distinct(b, t)|
    && forall i, p | 0 <= i < |a| && 0 <= p < |Distinct(a, t)| && a[i].kind == t ::
         Distinct(a, t)[p] == a[i].raw <==> Distinct(b, t)[p] == b[i].raw
  }

  /** A value is listed exactly when some span of its type carries it. */
  lemma {:induction false} DistinctMembers(cs: seq<Candidate>, t: PiiType, raw: string)
    ensures raw in Distinct(cs, t) <==> exists i :: 0 <= i < |cs| && cs[i].kind == t && cs[i].raw == raw
  {
    DistinctListsOccurrences(cs, t, raw);
    if i :| 0 <= i < |cs| && cs[i].kind == t && cs[i].raw == raw {
      FirstExists(cs, t, raw, i);
    }
  }

  /** Whether the last value is new is decided by the pattern. */
  lemma {:induction false} NewAlike(a: seq<Candidate>, b: seq<Candidate>, t: PiiType)
    requires SamePattern(a, b) && a != [] && a[|a| - 1].kind == t
    ensures a[|a| - 1].raw in Distinct(a[..|a| - 1], t) <==> b[|b| - 1].raw in Distinct(b[..|b| - 1], t)
  {
    var n := |a| - 1;
    DistinctMembers(a[..n], t, a[n].raw);
    DistinctMembers(b[..n], t, b[n].raw);
    if i :| 0 <= i < n && a[..n][i].kind == t && a[..n][i].raw == a[n].raw {
      assert a[i].raw == a[n].raw && b[..n][i] == b[i];
    }
    if i :| 0 <= i < n && b[..n][i].kind == t && b[..n][i].raw == b[n].raw {
      assert b[i].raw == b[n].raw && a[..n][i] == a[i];
    }
  }

  lemma {:induction false} PatternNumbersAlike(a: seq<Candidate>, b: seq<Candidate>, t: PiiType)
    requires SamePattern(a, b)
    ensures NumberedAlike(a, b, t)
  {
    if a != [] {
      var n := |a| - 1;
      SamePatternPrefix(a, b, n);
      PatternNumbersAlike(a[..n], b[..n], t);
      if a[n].kind == t {
        NewAlike(a, b, t);
        forall i, p | 0 <= i < |a| && 0 <= p < |Distinct(a, t)| && a[i].kind == t
          ensures Distinct(a, t)[p] == a[i].raw <==> Distinct(b, t)[p] == b[i].raw
        {
          PlaceAlike(a, b, t, i, p);
        }
      } else {
        forall i, p | 0 <= i < |a| && 0 <= p < |Distinct(a, t)| && a[i].kind == t
          ensures Distinct(a, t)[p] == a[i].raw <==> Distinct(b, t)[p] == b[i].raw
        {
          assert a[..n][i] == a[i] && b[..n][i] == b[i];
        }
      }
    }
  }

  /** The value listed at place `p` comes from some span. */
  lemma {:induction false} ListedFrom(cs: seq<Candidate>, t: PiiType, p: nat) returns (i: nat)
    requires p < |Distinct(cs, t)|
    ensures i < |cs| && cs[i].kind == t && cs[i].raw == Distinct(cs, t)[p]
  {
    DistinctMembers(cs, t, Distinct(cs, t)[p]);
    i :| 0 <= i < |cs| && cs[i].kind == t && cs[i].raw == Distinct(cs, t)[p];
  }

  lemma {:induction false} DistinctSnoc(cs: seq<Candidate>, t: PiiType)
    requires cs != [] && cs[|cs| - 1].kind == t
    ensures var before, last := Distinct(cs[..|cs| - 1], t), cs[|cs| - 1].raw;
      Distinct(cs, t) == if last in before then before else before + [last]
  {
  }

  /** The values listed at place `p` of two alike streams come from the same span. */
  lemma {:induction false} ListedTogether(a: seq<Candidate>, b: seq<Candidate>, t: PiiType, p: nat) returns (k: nat)
    requires SamePattern(a, b) && a != [] && a[|a| - 1].kind == t
    requires NumberedAlike(a[..|a| - 1], b[..|b| - 1], t)
    requires a[|a| - 1].raw in Distinct(a[..|a| - 1], t) <==> b[|b| - 1].raw in Distinct(b[..|b| - 1], t)
    requires p < |Distinct(a, t)|
    ensures k < |a| && a[k].kind == t && p < |Distinct(b, t)|
    ensures Distinct(a, t)[p] == a[k].raw && Distinct(b, t)[p] == b[k].raw
  {
    var n := |a| - 1;
    var before, beforeB := Distinct(a[..n], t), Distinct(b[..n], t);
    DistinctSnoc(a, t);
    DistinctSnoc(b, t);
    if p < |before| {
      k := ListedFrom(a[..n], t, p);
      assert a[..n][k] == a[k] && b[..n][k] == b[k];
      assert before[p] == a[..n][k].raw;
      assert beforeB[p] == b[..n][k].raw;
    } else {
      k := n;
    }
  }

  lemma {:induction false} PlaceAlike(a: seq<Candidate>, b: seq<Candidate>, t: PiiType, i: nat, p: nat)
    requires SamePattern(a, b) && a != [] && a[|a| - 1].kind == t
    requires NumberedAlike(a[..|a| - 1], b[..|b| - 1], t)
    requires a[|a| - 1].raw in Distinct(a[..|a| - 1], t) <==> b[|b| - 1].raw in Distinct(b[..|b| - 1], t)
    requires i < |a| && a[i].kind == t && p < |Distinct(a, t)| == |Distinct(b, t)|
    ensures Distinct(a, t)[p] == a[i].raw <==> Distinct(b, t)[p] == b[i].raw
  {
    var k := ListedTogether(a, b, t, p);
    assert a[k].raw == a[i].raw <==> b[k].raw == b[i].raw;
  }

  /** Spans at the same place of two alike streams get the same placeholder. */
  lemma {:induction false} SamePlaceholder(a: seq<Candidate>, b: seq<Candidate>, i: nat)
    requires SamePattern(a, b) && i < |a|
    ensures Lookup(RegisterAll(NO_TABLES, a).names, a[i]) == Lookup(RegisterAll(NO_TABLES, b).names, b[i])
  {
    var t := a[i].kind;
    RegisteringDescribesType(a, t);
    RegisteringDescribesType(b, t);
    PatternNumbersAlike(a, b, t);
    DistinctMembers(a, t, a[i].raw);
    var p :| 0 <= p < |Distinct(a, t)| && Distinct(a, t)[p] == a[i].raw;
    assert Distinct(b, t)[p] == b[i].raw;
  }

  // ---------------------------------------------------------------- texts and conversations

  /** The texts agree outside the spans. */
  ghost predicate SameGaps(x: string, p: nat, cs: seq<Candidate>, y: string, q: nat, ds: seq<Candidate>)
    requires Ordered(cs, x) && p <= |x| && (cs != [] ==> p <= cs[0].start)
    requires Ordered(ds, y) && q <= |y| && (ds != [] ==> q <= ds[0].start)
    decreases |cs|
  {
    if cs == [] || ds == [] then cs == [] && ds == [] && x[p..] == y[q..]
    else
      assert Ordered(cs[1..], x) && Ordered(ds[1..], y);
      x[p..cs[0].start] == y[q..ds[0].start] && SameGaps(x, cs[0].end, cs[1..], y, ds[0].end, ds[1..])
  }

  lemma {:induction false} SameGapsSameLength(x: string, p: nat, cs: seq<Candidate>, y: string, q: nat,
                                              ds: seq<Candidate>)
    requires Ordered(cs, x) && p <= |x| && (cs != [] ==> p <= cs[0].start)
    requires Ordered(ds, y) && q <= |y| && (ds != [] ==> q <= ds[0].start)
    requires SameGaps(x, p, cs, y, q, ds)
    ensures |cs| == |ds|
    decreases |cs|
  {
    if cs != [] {
      SameGapsSameLength(x, cs[0].end, cs[1..], y, ds[0].end, ds[1..]);
    }
  }

  lemma {:induction false} SameGapsRender(x: string, p: nat, cs: seq<Candidate>, a: Names, y: string, q: nat,
                                          ds: seq<Candidate>, b: Names)
    requires Ordered(cs, x) && p <= |x| && (cs != [] ==> p <= cs[0].start)
    requires Ordered(ds, y) && q <= |y| && (ds != [] ==> q <= ds[0].start)
    requires SameGaps(x, p, cs, y, q, ds)
    requires |cs| == |ds| && forall i | 0 <= i < |cs| :: Lookup(a, cs[i]) == Lookup(b, ds[i])
    ensures Render(x, p, cs, a) == Render(y, q, ds, b)
    decreases |cs|
  {
    if cs != [] {
      assert forall i | 0 <= i < |cs[1..]| :: cs[1..][i] == cs[i + 1] && ds[1..][i] == ds[i + 1];
      SameGapsRender(x, cs[0].end, cs[1..], a, y, ds[0].end, ds[1..], b);
    }
  }

  ghost predicate SameText(detect: Detector, x: string, y: string, enabled: set<PiiType>)
    requires Faithful(detect)
  {
    RedactionsOrdered(detect, x, enabled);
    RedactionsOrdered(detect, y, enabled);
    SameGaps(x, 0, Redactions(detect, x, enabled), y, 0, Redactions(detect, y, enabled))
  }

  /** Message by message the same roles and the same text outside the redacted spans. */
  ghost predicate SameOutside(detect: Detector, a: seq<Message>, b: seq<Message>, enabled: set<PiiType>)
    requires Faithful(detect)
  {
    && |a| == |b|
    && forall i | 0 <= i < |a| :: a[i].role == b[i].role && SameText(detect, a[i].content, b[i].content, enabled)
  }

  /** Where the redactions of message `i` stand in the stream of the conversation. */
  lemma {:induction false} StreamPlace(detect: Detector, messages: seq<Message>, enabled: set<PiiType>, i: nat)
    requires i < |messages|
    ensures var start := |Stream(detect, messages[..i], enabled)|;
      var own := Redactions(detect, messages[i].content, enabled);
      && start + |own| <= |Stream(detect, messages, enabled)|
      && Stream(detect, messages, enabled)[start..start + |own|] == own
  {
    var before, rest := messages[..i], messages[i + 1..];
    var upTo := messages[..i + 1];
    assert upTo[..|upTo| - 1] == before;
    assert messages == upTo + rest;
    StreamConcat(detect, upTo, rest, enabled);
  }

  lemma {:induction false} SameStreamLength(detect: Detector, a: seq<Message>, b: seq<Message>, enabled: set<PiiType>)
    requires Faithful(detect) && SameOutside(detect, a, b, enabled)
    ensures |Stream(detect, a, enabled)| == |Stream(detect, b, enabled)|
  {
    if a != [] {
      var n := |a| - 1;
      SameStreamLength(detect, a[..n], b[..n], enabled);
      SameRedactionCount(detect, a[n].content, b[n].content, enabled);
    }
  }

  lemma {:induction false} SameRedactionCount(detect: Detector, x: string, y: string, enabled: set<PiiType>)
    requires Faithful(detect) && SameText(detect, x, y, enabled)
    ensures |Redactions(detect, x, enabled)| == |Redactions(detect, y, enabled)|
  {
    RedactionsOrdered(detect, x, enabled);
    RedactionsOrdered(detect, y, enabled);
    SameGapsSameLength(x, 0, Redactions(detect, x, enabled), y, 0, Redactions(detect, y, enabled));
  }

  /** Corresponding stretches of streams that are named alike are named alike. */
  lemma {:induction false} StretchNamedAlike(s: seq<Candidate>, a: Names, t: seq<Candidate>, b: Names, start: nat,
                                             cs: seq<Candidate>, ds: seq<Candidate>)
    requires |s| == |t| && forall i | 0 <= i < |s| :: Lookup(a, s[i]) == Lookup(b, t[i])
    requires |cs| == |ds| && start + |cs| <= |s|
    requires s[start..start + |cs|] == cs && t[start..start + |ds|] == ds
    ensures forall j | 0 <= j < |cs| :: Lookup(a, cs[j]) == Lookup(b, ds[j])
  {
    forall j | 0 <= j < |cs|
      ensures Lookup(a, cs[j]) == Lookup(b, ds[j])
    {
      assert cs[j] == s[start + j] && ds[j] == t[start + j];
    }
  }

  /** Corresponding stretches of two alike streams get the same placeholders. */
  lemma {:induction false} SamePlaceholders(s: seq<Candidate>, t: seq<Candidate>, start: nat,
                                            cs: seq<Candidate>, ds: seq<Candidate>)
    requires SamePattern(s, t) && |cs| == |ds| && start + |cs| <= |s|
    requires s[start..start + |cs|] == cs && t[start..start + |ds|] == ds
    ensures forall j | 0 <= j < |cs| ::
      Lookup(RegisterAll(NO_TABLES, s).names, cs[j]) == Lookup(RegisterAll(NO_TABLES, t).names, ds[j])
  {
    forall i | 0 <= i < |s|
      ensures Lookup(RegisterAll(NO_TABLES, s).names, s[i]) == Lookup(RegisterAll(NO_TABLES, t).names, t[i])
    {
      SamePlaceholder(s, t, i);
    }
    StretchNamedAlike(s, RegisterAll(NO_TABLES, s).names, t, RegisterAll(NO_TABLES, t).names, start, cs, ds);
  }

  lemma {:induction false} SameTextMask(detect: Detector, x: string, a: Names, y: string, b: Names,
                                        enabled: set<PiiType>)
    requires Faithful(detect) && SameText(detect, x, y, enabled)
    requires var cs, ds := Redactions(detect, x, enabled), Redactions(detect, y, enabled);
      |cs| == |ds| && forall j | 0 <= j < |cs| :: Lookup(a, cs[j]) == Lookup(b, ds[j])
    ensures MaskWith(detect, x, enabled, a) == MaskWith(detect, y, enabled, b)
  {
    RedactionsOrdered(detect, x, enabled);
    RedactionsOrdered(detect, y, enabled);
    SameGapsRender(x, 0, Redactions(detect, x, enabled), a, y, 0, Redactions(detect, y, enabled), b);
  }

  /** The redactions of message `i` stand at the same places of two alike streams. */
  lemma {:induction false} SamePlaces(detect: Detector, a: seq<Message>, b: seq<Message>, enabled: set<PiiType>, i: nat)
    returns (start: nat)
    requires Faithful(detect) && SameOutside(detect, a, b, enabled) && i < |a|
    ensures var cs, ds := Redactions(detect, a[i].content, enabled), Redactions(detect, b[i].content, enabled);
      && |cs| == |ds| && start + |cs| <= |Stream(detect, a, enabled)| && start + |ds| <= |Stream(detect, b, enabled)|
      && Stream(detect, a, enabled)[start..start + |cs|] == cs && Stream(detect, b, enabled)[start..start + |ds|] == ds
  {
    start := |Stream(detect, a[..i], enabled)|;
    SameRedactionCount(detect, a[i].content, b[i].content, enabled);
    SameStreamLength(detect, a[..i], b[..i], enabled);
    StreamPlace(detect, a, enabled, i);
    StreamPlace(detect, b, enabled, i);
  }

  lemma {:induction false} SameMessageMask(detect: Detector, a: seq<Message>, b: seq<Message>,
                                           enabled: set<PiiType>, i: nat)
    requires Faithful(detect) && SameOutside(detect, a, b, enabled) && i < |a|
    requires SamePattern(Stream(detect, a, enabled), Stream(detect, b, enabled))
    ensures MaskWith(detect, a[i].content, enabled, RegisterAll(NO_TABLES, Stream(detect, a, enabled)).names)
         == MaskWith(detect, b[i].content, enabled, RegisterAll(NO_TABLES, Stream(detect, b, enabled)).names)
  {
    var x, y := a[i].content, b[i].content;
    var s, t := Stream(detect, a, enabled), Stream(detect, b, enabled);
    var start := SamePlaces(detect, a, b, enabled, i);
    SamePlaceholders(s, t, start, Redactions(detect, x, enabled), Redactions(detect, y, enabled));
    SameTextMask(detect, x, RegisterAll(NO_TABLES, s).names, y, RegisterAll(NO_TABLES, t).names, enabled);
  }

  /** Masking hides the values: the masked conversation depends on them only through their types
      and on which of them are equal. */
  lemma {:induction false} MaskingHidesValues(detect: Detector, a: seq<Message>, b: seq<Message>, enabled: set<PiiType>,
                                              maskedA: seq<Message>, maskedB: seq<Message>)
    requires Faithful(detect) && SameOutside(detect, a, b, enabled)
    requires SamePattern(Stream(detect, a, enabled), Stream(detect, b, enabled))
    requires MaskedFromOneTable(detect, a, enabled, maskedA) && MaskedFromOneTable(detect, b, enabled, maskedB)
    ensures maskedA == maskedB
  {
    forall i | 0 <= i < |a|
      ensures maskedA[i] == maskedB[i]
    {
      SameMessageMask(detect, a, b, enabled, i);
    }
  }
}
