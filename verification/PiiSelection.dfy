/** Choosing which detected spans of a text to redact (`_overlaps`, `_collect_candidates`).

    A detector is any function from a type and a text to spans; what the regular expressions
    guarantee of their matches is `Faithful`. */
module PiiSelection {

  datatype PiiType = Email | Rrn | Card | Phone

  /** The order in which the detectors claim spans (`DETECTOR_PRIORITY`). */
  const PRIORITY: seq<PiiType> := [Email, Rrn, Card, Phone]

  function Rank(t: PiiType): nat
  {
    match t
    case Email => 0
    case Rrn => 1
    case Card => 2
    case Phone => 3
  }

  datatype Candidate = Candidate(start: nat, end: nat, kind: PiiType, raw: string)

  type Detector = (PiiType, string) -> seq<Candidate>

  predicate Overlap(a: Candidate, b: Candidate)
  {
    a.start < b.end && b.start < a.end
  }

  /** `c` is a span of `text`: inside it, not empty, and carrying the text it covers. */
  predicate SpanOf(c: Candidate, text: string)
  {
    c.start < c.end <= |text| && c.raw == text[c.start..c.end]
  }

  /** Matches of one detector: spans of the text, of its type, left to right without overlap. */
  predicate InOrder(cs: seq<Candidate>, t: PiiType, text: string)
  {
    && (forall i | 0 <= i < |cs| :: SpanOf(cs[i], text) && cs[i].kind == t)
    && (forall i, j | 0 <= i < j < |cs| :: cs[i].end <= cs[j].start)
  }

  ghost predicate Faithful(detect: Detector)
  {
    forall t: PiiType, text: string :: InOrder(detect(t, text), t, text)
  }

  predicate OverlapsAny(c: Candidate, accepted: seq<Candidate>)
  {
    exists i | 0 <= i < |accepted| :: Overlap(c, accepted[i])
  }

  // ---------------------------------------------------------------- the greedy pass

  /** One detector's matches offered in order to the accepted list. */
  function Offer(found: seq<Candidate>, accepted: seq<Candidate>): seq<Candidate>
  {
    if found == [] then accepted
    else Offer(found[1..], if OverlapsAny(found[0], accepted) then accepted else accepted + [found[0]])
  }

  function Collect(kinds: seq<PiiType>, detect: Detector, text: string, enabled: set<PiiType>,
                   accepted: seq<Candidate>): seq<Candidate>
  {
    if kinds == [] then accepted
    else
      var next := if kinds[0] in enabled then Offer(detect(kinds[0], text), accepted) else accepted;
      Collect(kinds[1..], detect, text, enabled, next)
  }

  function Selected(detect: Detector, text: string, enabled: set<PiiType>): seq<Candidate>
  {
    Collect(PRIORITY, detect, text, enabled, [])
  }

  method CollectCandidates(detect: Detector, text: string, enabled: set<PiiType>)
    returns (accepted: seq<Candidate>)
    ensures accepted == Selected(detect, text, enabled)
  {
    accepted := [];
    for p := 0 to |PRIORITY|
      invariant Selected(detect, text, enabled) == Collect(PRIORITY[p..], detect, text, enabled, accepted)
    {
      ghost var before := accepted;
      var piiType := PRIORITY[p];
      if piiType in enabled {
        var found := detect(piiType, text);
        for i := 0 to |found|
          invariant Offer(found, before) == Offer(found[i..], accepted)
        {
          if !OverlapsAny(found[i], accepted) {
            accepted := accepted + [found[i]];
          }
        }
      }
    }
  }

  // ---------------------------------------------------------------- what is selected

  /** `c` is reported by an enabled detector. */
  ghost predicate Detected(detect: Detector, text: string, enabled: set<PiiType>, c: Candidate)
  {
    c.kind in enabled && c in detect(c.kind, text)
  }

  /** Some member of `chosen` with a strictly higher priority overlaps `c`. */
  ghost predicate Shadowed(chosen: iset<Candidate>, c: Candidate)
  {
    exists a :: a in chosen && Rank(a.kind) < Rank(c.kind) && Overlap(a, c)
  }

  /** The declarative rule: detected, and not shadowed by a chosen candidate of higher priority. */
  ghost predicate PrioritySelection(chosen: iset<Candidate>, detect: Detector, text: string, enabled: set<PiiType>)
  {
    forall c: Candidate :: c in chosen <==> Detected(detect, text, enabled, c) && !Shadowed(chosen, c)
  }

  /** At most one set obeys the rule. */
  lemma {:induction false} PrioritySelectionUnique(a: iset<Candidate>, b: iset<Candidate>,
                                                   detect: Detector, text: string, enabled: set<PiiType>)
    requires PrioritySelection(a, detect, text, enabled) && PrioritySelection(b, detect, text, enabled)
    ensures a == b
  {
    forall c: Candidate
      ensures c in a <==> c in b
    {
      SameMembership(a, b, detect, text, enabled, c);
    }
  }

  lemma {:induction false} SameMembership(a: iset<Candidate>, b: iset<Candidate>,
                                          detect: Detector, text: string, enabled: set<PiiType>, c: Candidate)
    requires PrioritySelection(a, detect, text, enabled) && PrioritySelection(b, detect, text, enabled)
    ensures c in a <==> c in b
    decreases Rank(c.kind)
  {
    forall x: Candidate | Rank(x.kind) < Rank(c.kind)
      ensures x in a <==> x in b
    {
      SameMembership(a, b, detect, text, enabled, x);
    }
    assert Shadowed(a, c) <==> Shadowed(b, c);
  }

  ghost predicate Disjoint(cs: seq<Candidate>)
  {
    forall i, j | 0 <= i < |cs| && 0 <= j < |cs| && i != j :: !Overlap(cs[i], cs[j])
  }

  /** The members of `cs`, as a set. */
  ghost function Members(cs: seq<Candidate>): iset<Candidate>
  {
    iset c | c in cs
  }

  /** Progress of the pass: the accepted list is right for every type among the first `p`
      priorities and holds nothing else. */
  ghost predicate Settled(accepted: seq<Candidate>, p: nat, detect: Detector, text: string, enabled: set<PiiType>)
  {
    && Disjoint(accepted)
    && (forall c | c in accepted :: Rank(c.kind) < p && Detected(detect, text, enabled, c) && SpanOf(c, text))
    && (forall c: Candidate | Detected(detect, text, enabled, c) && Rank(c.kind) < p ::
          c in accepted <==> !Shadowed(Members(accepted), c))
  }

  lemma {:induction false} OverlapsGrown(c: Candidate, accepted: seq<Candidate>, head: Candidate)
    ensures OverlapsAny(c, accepted + [head]) <==> OverlapsAny(c, accepted) || Overlap(c, head)
  {
    var grown := accepted + [head];
    if i :| 0 <= i < |accepted| && Overlap(c, accepted[i]) {
      assert Overlap(c, grown[i]);
    }
    if Overlap(c, head) {
      assert Overlap(c, grown[|accepted|]);
    }
  }

  lemma {:induction false} OfferMembers(found: seq<Candidate>, accepted: seq<Candidate>, t: PiiType, text: string,
                                        c: Candidate)
    requires InOrder(found, t, text)
    ensures c in Offer(found, accepted) <==> c in accepted || (c in found && !OverlapsAny(c, accepted))
  {
    if found != [] {
      var head, tail := found[0], found[1..];
      assert found == [head] + tail;
      assert InOrder(tail, t, text);
      OfferMembers(tail, if OverlapsAny(head, accepted) then accepted else accepted + [head], t, text, c);
      OverlapsGrown(c, accepted, head);
      assert c in tail ==> !Overlap(c, head);
    }
  }

  lemma {:induction false} OfferDisjoint(found: seq<Candidate>, accepted: seq<Candidate>)
    requires Disjoint(accepted)
    ensures Disjoint(Offer(found, accepted)) && accepted <= Offer(found, accepted)
  {
    if found != [] {
      var grown := if OverlapsAny(found[0], accepted) then accepted else accepted + [found[0]];
      assert Disjoint(grown) && accepted <= grown;
      OfferDisjoint(found[1..], grown);
    }
  }

  /** Offering ordered matches keeps those that overlap nothing accepted before, and only those. */
  lemma {:induction false} OfferKeepsUnshadowed(found: seq<Candidate>, accepted: seq<Candidate>, t: PiiType,
                                                text: string)
    requires InOrder(found, t, text) && Disjoint(accepted)
    ensures var r := Offer(found, accepted);
      && Disjoint(r) && accepted <= r
      && (forall c :: c in r <==> c in accepted || (c in found && !OverlapsAny(c, accepted)))
  {
    OfferDisjoint(found, accepted);
    forall c
      ensures c in Offer(found, accepted) <==> c in accepted || (c in found && !OverlapsAny(c, accepted))
    {
      OfferMembers(found, accepted, t, text, c);
    }
  }

  lemma {:induction false} PassSettlesNextPriority(accepted: seq<Candidate>, p: nat, detect: Detector,
                                                   text: string, enabled: set<PiiType>)
    requires p < |PRIORITY| && Faithful(detect) && Settled(accepted, p, detect, text, enabled)
    ensures Settled(if PRIORITY[p] in enabled then Offer(detect(PRIORITY[p], text), accepted) else accepted,
                    p + 1, detect, text, enabled)
  {
    var t := PRIORITY[p];
    assert Rank(t) == p;
    var found := detect(t, text);
    assert InOrder(found, t, text);
    var r := if t in enabled then Offer(found, accepted) else accepted;
    if t in enabled {
      OfferKeepsUnshadowed(found, accepted, t, text);
    }
    forall c: Candidate | Rank(c.kind) < p + 1
      ensures Shadowed(Members(r), c) <==> Shadowed(Members(accepted), c)
    {
    }
    forall c: Candidate | Detected(detect, text, enabled, c) && Rank(c.kind) < p + 1
      ensures c in r <==> !Shadowed(Members(r), c)
    {
      if Rank(c.kind) == p {
        assert c.kind == t;
        ShadowedIsOverlap(accepted, p, c);
        assert OverlapsAny(c, accepted) && c in accepted ==> false;
      }
    }
  }

  /** Against a list of strictly higher priority, being shadowed is overlapping something. */
  lemma {:induction false} ShadowedIsOverlap(accepted: seq<Candidate>, p: nat, c: Candidate)
    requires Rank(c.kind) == p && forall a | a in accepted :: Rank(a.kind) < p
    ensures Shadowed(Members(accepted), c) <==> OverlapsAny(c, accepted)
  {
    if OverlapsAny(c, accepted) {
      var i :| 0 <= i < |accepted| && Overlap(c, accepted[i]);
      assert accepted[i] in Members(accepted);
    }
  }

  lemma {:induction false} CollectSettles(p: nat, detect: Detector, text: string, enabled: set<PiiType>,
                                          accepted: seq<Candidate>)
    requires p <= |PRIORITY| && Faithful(detect) && Settled(accepted, p, detect, text, enabled)
    ensures Settled(Collect(PRIORITY[p..], detect, text, enabled, accepted), |PRIORITY|, detect, text, enabled)
    decreases |PRIORITY| - p
  {
    if p < |PRIORITY| {
      PassSettlesNextPriority(accepted, p, detect, text, enabled);
      var next := if PRIORITY[p] in enabled then Offer(detect(PRIORITY[p], text), accepted) else accepted;
      assert PRIORITY[p..][1..] == PRIORITY[p + 1..];
      CollectSettles(p + 1, detect, text, enabled, next);
    }
  }

  /** The pass returns exactly the priority selection, as pairwise disjoint spans of the text. */
  lemma {:induction false} SelectedIsPrioritySelection(detect: Detector, text: string, enabled: set<PiiType>)
    requires Faithful(detect)
    ensures var r := Selected(detect, text, enabled);
      && PrioritySelection(Members(r), detect, text, enabled)
      && Disjoint(r)
      && (forall c | c in r :: SpanOf(c, text) && c.kind in enabled)
  {
    CollectSettles(0, detect, text, enabled, []);
    assert PRIORITY[0..] == PRIORITY;
    forall c: Candidate
      ensures Rank(c.kind) < |PRIORITY|
    {
    }
  }

  /** Every detected candidate loses at least one of its characters to an accepted span. */
  lemma {:induction false} EveryDetectionRedacted(detect: Detector, text: string, enabled: set<PiiType>,
                                                  c: Candidate) returns (a: Candidate, i: nat)
    requires Faithful(detect) && Detected(detect, text, enabled, c)
    ensures a in Selected(detect, text, enabled)
    ensures c.start <= i < c.end && a.start <= i < a.end
  {
    SelectedIsPrioritySelection(detect, text, enabled);
    var r := Selected(detect, text, enabled);
    assert InOrder(detect(c.kind, text), c.kind, text);
    if c in Members(r) {
      a, i := c, c.start;
    } else {
      a :| a in Members(r) && Rank(a.kind) < Rank(c.kind) && Overlap(a, c);
      i := if a.start < c.start then c.start else a.start;
    }
  }

  /** `c` overlaps a selected span of one of the types. */
  ghost predicate Blocked(selected: seq<Candidate>, types: set<PiiType>, c: Candidate)
  {
    exists a :: a in selected && a.kind in types && Overlap(a, c)
  }

  /** Who gives way to whom: detected e-mail addresses are always redacted, a resident number unless
      it overlaps a redacted e-mail address, a card number unless it overlaps one of these, and a
      phone number unless it overlaps a redacted span of any other type. */
  lemma {:induction false} WhoGivesWay(detect: Detector, text: string, enabled: set<PiiType>, c: Candidate)
    requires Faithful(detect) && Detected(detect, text, enabled, c)
    ensures var selected := Selected(detect, text, enabled);
      c in selected <==>
        match c.kind
        case Email => true
        case Rrn => !Blocked(selected, {Email}, c)
        case Card => !Blocked(selected, {Email, Rrn}, c)
        case Phone => !Blocked(selected, {Email, Rrn, Card}, c)
  {
    var selected := Selected(detect, text, enabled);
    SelectedIsPrioritySelection(detect, text, enabled);
    assert c in Members(selected) <==> !Shadowed(Members(selected), c);
    if a :| a in Members(selected) && Rank(a.kind) < Rank(c.kind) && Overlap(a, c) {
      assert a in selected;
    }
    forall a | a in selected && Overlap(a, c)
      ensures a in Members(selected)
    {
    }
  }
}
