/** Replacing accepted spans by numbered placeholders, one table for a whole conversation
    (`_apply_mask`, `mask_text`, `mask_messages`). */
module PiiMasking {
  import opened PiiSelection

  // ---------------------------------------------------------------- placeholder text

  function UpperName(t: PiiType): string
  {
    match t
    case Email => "EMAIL"
    case Rrn => "RRN"
    case Card => "CARD"
    case Phone => "PHONE"
  }

  function DigitChar(d: nat): char
    requires d < 10
  {
    '0' + d as char
  }

  function Decimal(n: nat): string
  {
    if n < 10 then [DigitChar(n)] else Decimal(n / 10) + [DigitChar(n % 10)]
  }

  /** The number a digit string denotes. */
  function DecimalValue(s: string): int
  {
    if s == "" then 0 else 10 * DecimalValue(s[..|s| - 1]) + (s[|s| - 1] as int - '0' as int)
  }

  lemma {:induction false} DecimalRoundTrip(n: nat)
    ensures DecimalValue(Decimal(n)) == n
  {
    var s := Decimal(n);
    if n < 10 {
      assert s[..|s| - 1] == "";
    } else {
      assert s[..|s| - 1] == Decimal(n / 10);
      DecimalRoundTrip(n / 10);
    }
  }

  function Placeholder(t: PiiType, index: nat): string
  {
    "[REDACTED:" + UpperName(t) + ":" + Decimal(index) + "]"
  }

  /** Placeholder texts tell types and indices apart. */
  lemma {:induction false} PlaceholderInjective(t: PiiType, i: nat, u: PiiType, j: nat)
    requires Placeholder(t, i) == Placeholder(u, j)
    ensures t == u && i == j
  {
    var x, y := Placeholder(t, i), Placeholder(u, j);
    assert x[10..12] == UpperName(t)[..2] && y[10..12] == UpperName(u)[..2];
    assert x[10] == UpperName(t)[0] && y[10] == UpperName(u)[0];
    assert t == u;
    var k := 11 + |UpperName(t)|;
    assert x[k..|x| - 1] == Decimal(i) && y[k..|y| - 1] == Decimal(j);
    DecimalRoundTrip(i);
    DecimalRoundTrip(j);
  }

  /** A placeholder reads `[REDACTED:TYPE:index]`, the index in decimal without leading zeros. */
  lemma {:induction false} PlaceholderReads(t: PiiType, index: nat) returns (digits: string)
    ensures Placeholder(t, index)
         == "[REDACTED:" + (match t case Email => "EMAIL" case Rrn => "RRN" case Card => "CARD" case Phone => "PHONE")
            + ":" + digits + "]"
    ensures DecimalValue(digits) == index && forall i | 0 <= i < |digits| :: '0' <= digits[i] <= '9'
    ensures |digits| == 1 || (|digits| > 1 && digits[0] != '0')
  {
    digits := Decimal(index);
    DecimalRoundTrip(index);
    DecimalDigits(index);
  }

  lemma {:induction false} DecimalDigits(n: nat)
    ensures Decimal(n) != "" && forall i | 0 <= i < |Decimal(n)| :: '0' <= Decimal(n)[i] <= '9'
    ensures n > 0 ==> Decimal(n)[0] != '0'
    ensures n < 10 ==> |Decimal(n)| == 1
  {
    if n >= 10 {
      DecimalDigits(n / 10);
    }
  }

  // ---------------------------------------------------------------- ordering by start

  function Insert(c: Candidate, sorted: seq<Candidate>): seq<Candidate>
  {
    if sorted == [] || c.start <= sorted[0].start then [c] + sorted
    else [sorted[0]] + Insert(c, sorted[1..])
  }

  /** Stable sort on the start position. */
  function SortByStart(cs: seq<Candidate>): seq<Candidate>
  {
    if cs == [] then [] else Insert(cs[0], SortByStart(cs[1..]))
  }

  function CountOf(cs: seq<Candidate>, t: PiiType): nat
  {
    if cs == [] then 0
    else CountOf(cs[..|cs| - 1], t) + if cs[|cs| - 1].kind == t then 1 else 0
  }

  lemma {:induction false} CountOfConcat(a: seq<Candidate>, b: seq<Candidate>, t: PiiType)
    ensures CountOf(a + b, t) == CountOf(a, t) + CountOf(b, t)
  {
    if b == [] {
      assert a + b == a;
    } else {
      assert (a + b)[..|a + b| - 1] == a + b[..|b| - 1];
      CountOfConcat(a, b[..|b| - 1], t);
    }
  }

  /** Spans of the text, left to right without overlap. */
  ghost predicate Ordered(cs: seq<Candidate>, text: string)
  {
    && (forall i | 0 <= i < |cs| :: cs[i].start < cs[i].end <= |text|)
    && (forall i, j | 0 <= i < j < |cs| :: cs[i].end <= cs[j].start)
  }

  lemma {:induction false} InsertMembers(c: Candidate, cs: seq<Candidate>)
    ensures forall x :: x in Insert(c, cs) <==> x == c || x in cs
  {
    if cs != [] && c.start > cs[0].start {
      InsertMembers(c, cs[1..]);
    }
  }

  lemma {:induction false} InsertKeepsOrder(c: Candidate, cs: seq<Candidate>, text: string)
    requires Ordered(cs, text) && c.start < c.end <= |text|
    requires forall i | 0 <= i < |cs| :: !Overlap(c, cs[i])
    ensures Ordered(Insert(c, cs), text)
  {
    if cs == [] || c.start <= cs[0].start {
      assert cs != [] ==> !Overlap(c, cs[0]);
      OrderedCons(c, cs, text);
    } else {
      var tail := cs[1..];
      OrderedTail(cs, text, 1);
      InsertKeepsOrder(c, tail, text);
      InsertMembers(c, tail);
      var r := Insert(c, tail);
      forall x | x in r
        ensures cs[0].end <= x.start
      {
        if x != c {
          var j :| 0 <= j < |tail| && tail[j] == x;
          assert x == cs[j + 1];
        }
      }
      OrderedCons(cs[0], r, text);
    }
  }

  lemma {:induction false} OrderedCons(c: Candidate, cs: seq<Candidate>, text: string)
    requires Ordered(cs, text) && c.start < c.end <= |text| && forall x | x in cs :: c.end <= x.start
    ensures Ordered([c] + cs, text)
  {
  }

  lemma {:induction false} InsertCount(c: Candidate, cs: seq<Candidate>, t: PiiType)
    ensures CountOf(Insert(c, cs), t) == CountOf(cs, t) + if c.kind == t then 1 else 0
  {
    if cs == [] || c.start <= cs[0].start {
      CountOfConcat([c], cs, t);
    } else {
      var tail := cs[1..];
      assert cs == [cs[0]] + tail;
      InsertCount(c, tail, t);
      CountOfConcat([cs[0]], Insert(c, tail), t);
      CountOfConcat([cs[0]], tail, t);
    }
  }

  lemma {:induction false} SortCount(cs: seq<Candidate>, t: PiiType)
    ensures CountOf(SortByStart(cs), t) == CountOf(cs, t)
  {
    if cs != [] {
      SortCount(cs[1..], t);
      InsertCount(cs[0], SortByStart(cs[1..]), t);
      assert cs == [cs[0]] + cs[1..];
      CountOfConcat([cs[0]], cs[1..], t);
    }
  }

  /** Sorting pairwise disjoint spans puts them left to right and keeps exactly those spans. */
  lemma {:induction false} SortOrders(cs: seq<Candidate>, text: string)
    requires Disjoint(cs) && forall c | c in cs :: SpanOf(c, text)
    ensures Ordered(SortByStart(cs), text)
    ensures forall c :: c in SortByStart(cs) <==> c in cs
  {
    if cs != [] {
      var tail := cs[1..];
      assert cs == [cs[0]] + tail;
      SortOrders(tail, text);
      var s := SortByStart(tail);
      forall i | 0 <= i < |s|
        ensures !Overlap(cs[0], s[i])
      {
        assert s[i] in tail;
        var j :| 0 <= j < |tail| && tail[j] == s[i];
        assert !Overlap(cs[0], cs[j + 1]);
      }
      assert SpanOf(cs[0], text);
      InsertKeepsOrder(cs[0], s, text);
      InsertMembers(cs[0], s);
    }
  }

  // ---------------------------------------------------------------- placeholder tables

  type Names = map<(PiiType, string), string>

  datatype Tables = Tables(counts: map<PiiType, nat>, next: map<PiiType, nat>, names: Names)

  const NO_TABLES := Tables(map[], map[], map[])

  function Get(m: map<PiiType, nat>, t: PiiType): nat
  {
    if t in m then m[t] else 0
  }

  function Register(tables: Tables, c: Candidate): Tables
  {
    var counted := tables.(counts := tables.counts[c.kind := Get(tables.counts, c.kind) + 1]);
    if (c.kind, c.raw) in tables.names then counted
    else
      var index := Get(tables.next, c.kind) + 1;
      counted.(next := tables.next[c.kind := index],
               names := tables.names[(c.kind, c.raw) := Placeholder(c.kind, index)])
  }

  function RegisterAll(tables: Tables, cs: seq<Candidate>): Tables
  {
    if cs == [] then tables
    else Register(RegisterAll(tables, cs[..|cs| - 1]), cs[|cs| - 1])
  }

  lemma {:induction false} RegisterAllConcat(tables: Tables, a: seq<Candidate>, b: seq<Candidate>)
    ensures RegisterAll(tables, a + b) == RegisterAll(RegisterAll(tables, a), b)
  {
    if b == [] {
      assert a + b == a;
    } else {
      assert (a + b)[..|a + b| - 1] == a + b[..|b| - 1];
      RegisterAllConcat(tables, a, b[..|b| - 1]);
    }
  }

  /** A placeholder once given is never changed, and every registered value has one. */
  lemma {:induction false} NamesOnlyGrow(tables: Tables, cs: seq<Candidate>)
    ensures var r := RegisterAll(tables, cs);
      && (forall k | k in tables.names :: k in r.names && r.names[k] == tables.names[k])
      && (forall c | c in cs :: (c.kind, c.raw) in r.names)
  {
    if cs != [] {
      NamesOnlyGrow(tables, cs[..|cs| - 1]);
      assert cs == cs[..|cs| - 1] + [cs[|cs| - 1]];
    }
  }

  /** The distinct raw values of type `t`, in order of first occurrence. */
  function Distinct(cs: seq<Candidate>, t: PiiType): seq<string>
  {
    if cs == [] then []
    else
      var before := Distinct(cs[..|cs| - 1], t);
      var c := cs[|cs| - 1];
      if c.kind == t && c.raw !in before then before + [c.raw] else before
  }

  /** `i` is where the value `raw` of type `t` first occurs. */
  predicate FirstAt(cs: seq<Candidate>, t: PiiType, raw: string, i: nat)
  {
    i < |cs| && cs[i].kind == t && cs[i].raw == raw
    && forall j | 0 <= j < i :: !(cs[j].kind == t && cs[j].raw == raw)
  }

  /** A value is listed exactly when it has occurred. */
  lemma {:induction false} DistinctListsOccurrences(cs: seq<Candidate>, t: PiiType, raw: string)
    ensures raw in Distinct(cs, t) <==> exists i: nat :: FirstAt(cs, t, raw, i)
  {
    if cs != [] {
      var n := |cs| - 1;
      DistinctListsOccurrences(cs[..n], t, raw);
      if i: nat :| FirstAt(cs[..n], t, raw, i) {
        assert FirstAt(cs, t, raw, i);
      } else if cs[n].kind == t && cs[n].raw == raw {
        FirstExists(cs, t, raw, n);
      } else if i: nat :| FirstAt(cs, t, raw, i) {
        assert FirstAt(cs[..n], t, raw, i);
      }
    }
  }

  lemma {:induction false} FirstExists(cs: seq<Candidate>, t: PiiType, raw: string, n: nat)
    requires n < |cs| && cs[n].kind == t && cs[n].raw == raw
    ensures exists i: nat :: i <= n && FirstAt(cs, t, raw, i)
  {
    if j :| 0 <= j < n && cs[j].kind == t && cs[j].raw == raw {
      FirstExists(cs, t, raw, j);
    } else {
      assert FirstAt(cs, t, raw, n);
    }
  }

  /** The listed values are distinct and in the order of their first occurrences. */
  lemma {:induction false} DistinctInFirstOccurrenceOrder(cs: seq<Candidate>, t: PiiType, a: nat, b: nat,
                                                          i: nat, j: nat)
    requires a < b < |Distinct(cs, t)|
    requires FirstAt(cs, t, Distinct(cs, t)[a], i) && FirstAt(cs, t, Distinct(cs, t)[b], j)
    ensures i < j && Distinct(cs, t)[a] != Distinct(cs, t)[b]
  {
    var n := |cs| - 1;
    var before := Distinct(cs[..n], t);
    DistinctListsOccurrences(cs[..n], t, before[a]);
    var p: nat :| FirstAt(cs[..n], t, before[a], p);
    assert i == p;
    if b < |before| {
      DistinctListsOccurrences(cs[..n], t, before[b]);
      var q: nat :| FirstAt(cs[..n], t, before[b], q);
      assert j == q;
      DistinctInFirstOccurrenceOrder(cs[..n], t, a, b, i, j);
    } else {
      DistinctListsOccurrences(cs[..n], t, cs[n].raw);
      assert j < n ==> FirstAt(cs[..n], t, cs[n].raw, j);
    }
  }

  /** What the tables say after a stream of accepted spans: exact counts, and the value that was
      the i-th distinct one of its type carries index i, so indices 1..k are each used once. */
  ghost predicate Describes(tables: Tables, cs: seq<Candidate>)
  {
    forall t :: DescribesType(tables, cs, t)
  }

  ghost predicate DescribesType(tables: Tables, cs: seq<Candidate>, t: PiiType)
  {
    && (t in tables.counts <==> CountOf(cs, t) > 0) && Get(tables.counts, t) == CountOf(cs, t)
    && NamesDistinct(tables, Distinct(cs, t), t)
  }

  /** Exactly the values `distinct` of type `t` are named, by their positions from 1 on. */
  ghost predicate NamesDistinct(tables: Tables, distinct: seq<string>, t: PiiType)
  {
    && Get(tables.next, t) == |distinct|
    && (forall raw :: (t, raw) in tables.names <==> raw in distinct)
    && (forall i | 0 <= i < |distinct| :: tables.names[(t, distinct[i])] == Placeholder(t, i + 1))
  }

  lemma {:induction false} RegisterNames(tables: Tables, distinct: seq<string>, c: Candidate, t: PiiType)
    requires NamesDistinct(tables, distinct, t)
    ensures NamesDistinct(Register(tables, c),
                          if c.kind == t && c.raw !in distinct then distinct + [c.raw] else distinct, t)
  {
    var after := Register(tables, c);
    if c.kind == t && c.raw !in distinct {
      assert after.names == tables.names[(t, c.raw) := Placeholder(t, |distinct| + 1)];
    } else {
      assert c.kind == t ==> after.names == tables.names && after.next == tables.next;
    }
  }

  lemma {:induction false} RegisteringDescribesType(cs: seq<Candidate>, t: PiiType)
    ensures DescribesType(RegisterAll(NO_TABLES, cs), cs, t)
  {
    if cs != [] {
      var shorter, c := cs[..|cs| - 1], cs[|cs| - 1];
      RegisteringDescribesType(shorter, t);
      var before := RegisterAll(NO_TABLES, shorter);
      RegisterNames(before, Distinct(shorter, t), c, t);
      assert Register(before, c).counts == before.counts[c.kind := Get(before.counts, c.kind) + 1];
    }
  }

  lemma {:induction false} RegisteringDescribes(cs: seq<Candidate>)
    ensures Describes(RegisterAll(NO_TABLES, cs), cs)
  {
    forall t
      ensures DescribesType(RegisterAll(NO_TABLES, cs), cs, t)
    {
      RegisteringDescribesType(cs, t);
    }
  }

  /** Two redacted values get the same placeholder text exactly when they are the same value
      of the same type. */
  lemma {:induction false} NamesInjective(cs: seq<Candidate>, k: (PiiType, string), l: (PiiType, string))
    requires k in RegisterAll(NO_TABLES, cs).names && l in RegisterAll(NO_TABLES, cs).names
    ensures RegisterAll(NO_TABLES, cs).names[k] == RegisterAll(NO_TABLES, cs).names[l] <==> k == l
  {
    var names := RegisterAll(NO_TABLES, cs).names;
    RegisteringDescribesType(cs, k.0);
    RegisteringDescribesType(cs, l.0);
    var d, e := Distinct(cs, k.0), Distinct(cs, l.0);
    assert k.1 in d && l.1 in e;
    var i :| 0 <= i < |d| && d[i] == k.1;
    var j :| 0 <= j < |e| && e[j] == l.1;
    assert k == (k.0, d[i]) && l == (l.0, e[j]);
    if names[k] == names[l] {
      PlaceholderInjective(k.0, i + 1, l.0, j + 1);
    }
  }

  // ---------------------------------------------------------------- rendering

  function Lookup(names: Names, c: Candidate): string
  {
    if (c.kind, c.raw) in names then names[(c.kind, c.raw)] else ""
  }

  /** The simple form: gap, placeholder, gap, placeholder, ..., rest; from position `pos` on. */
  ghost function Render(text: string, pos: nat, cs: seq<Candidate>, names: Names): string
    requires Ordered(cs, text) && pos <= |text| && (cs != [] ==> pos <= cs[0].start)
    decreases |cs|
  {
    if cs == [] then text[pos..]
    else
      assert Ordered(cs[1..], text);
      text[pos..cs[0].start] + Lookup(names, cs[0]) + Render(text, cs[0].end, cs[1..], names)
  }

  lemma {:induction false} PrefixFirst(a: string, b: string, name: string, rest: string)
    ensures (a + b) + name + rest == a + (b + name + rest)
  {
  }

  /** Text before the first span is copied. */
  lemma {:induction false} RenderFrom(text: string, p: nat, q: nat, cs: seq<Candidate>, names: Names)
    requires Ordered(cs, text) && p <= q <= |text| && (cs != [] ==> q <= cs[0].start)
    ensures Render(text, p, cs, names) == text[p..q] + Render(text, q, cs, names)
  {
    if cs == [] {
      assert text[p..] == text[p..q] + text[q..];
    } else {
      assert text[p..cs[0].start] == text[p..q] + text[q..cs[0].start];
      assert Ordered(cs[1..], text);
      PrefixFirst(text[p..q], text[q..cs[0].start], Lookup(names, cs[0]), Render(text, cs[0].end, cs[1..], names));
    }
  }

  /** One in-place splice to the left of everything already rendered adds one rendered span. */
  lemma {:induction false} SpliceStep(text: string, c: Candidate, done: seq<Candidate>, masked: string, names: Names)
    requires Ordered([c] + done, text) && Ordered(done, text)
    requires masked == Render(text, 0, done, names)
    ensures c.start < c.end <= |masked|
    ensures masked[..c.start] + Lookup(names, c) + masked[c.end..] == Render(text, 0, [c] + done, names)
  {
    var all := [c] + done;
    assert c == all[0] && all[1..] == done;
    assert forall i | 0 <= i < |done| :: all[i + 1] == done[i];
    RenderFrom(text, 0, c.end, done, names);
    var rest := Render(text, c.end, done, names);
    assert masked == text[..c.end] + rest;
    assert masked[..c.start] == text[0..c.start];
    assert masked[c.end..] == rest;
  }

  ghost function SpanLength(cs: seq<Candidate>): int
  {
    if cs == [] then 0 else cs[0].end - cs[0].start + SpanLength(cs[1..])
  }

  ghost function NameLength(cs: seq<Candidate>, names: Names): nat
  {
    if cs == [] then 0 else |Lookup(names, cs[0])| + NameLength(cs[1..], names)
  }

  lemma {:induction false} RenderLength(text: string, pos: nat, cs: seq<Candidate>, names: Names)
    requires Ordered(cs, text) && pos <= |text| && (cs != [] ==> pos <= cs[0].start)
    ensures |Render(text, pos, cs, names)| == |text| - pos - SpanLength(cs) + NameLength(cs, names)
    decreases |cs|
  {
    if cs != [] {
      RenderLength(text, cs[0].end, cs[1..], names);
    }
  }

  predicate Covered(i: nat, cs: seq<Candidate>)
  {
    exists j | 0 <= j < |cs| :: cs[j].start <= i < cs[j].end
  }

  /** The characters of `text` from `pos` on that no span covers, in order. */
  function Outside(text: string, pos: nat, cs: seq<Candidate>): string
    requires pos <= |text|
    decreases |text| - pos
  {
    if pos == |text| then []
    else (if Covered(pos, cs) then [] else [text[pos]]) + Outside(text, pos + 1, cs)
  }

  lemma {:induction false} OutsideSkips(text: string, p: nat, q: nat, cs: seq<Candidate>)
    requires p <= q <= |text| && forall i | p <= i < q :: Covered(i, cs)
    ensures Outside(text, p, cs) == Outside(text, q, cs)
    decreases q - p
  {
    if p < q {
      OutsideSkips(text, p + 1, q, cs);
    }
  }

  lemma {:induction false} OutsideAgrees(text: string, pos: nat, cs: seq<Candidate>, ds: seq<Candidate>)
    requires pos <= |text| && forall i: nat | pos <= i < |text| :: Covered(i, cs) <==> Covered(i, ds)
    ensures Outside(text, pos, cs) == Outside(text, pos, ds)
    decreases |text| - pos
  {
    if pos < |text| {
      assert Covered(pos, cs) <==> Covered(pos, ds);
      OutsideAgrees(text, pos + 1, cs, ds);
    }
  }

  /** To the right of the first span, the other spans decide. */
  lemma {:induction false} CoveredPastFirst(i: nat, cs: seq<Candidate>)
    requires cs != [] && cs[0].end <= i
    ensures Covered(i, cs) <==> Covered(i, cs[1..])
  {
    var tail := cs[1..];
    if Covered(i, cs) {
      var j :| 0 <= j < |cs| && cs[j].start <= i < cs[j].end;
      assert cs[j] == tail[j - 1];
    }
    if Covered(i, tail) {
      var j :| 0 <= j < |tail| && tail[j].start <= i < tail[j].end;
      assert cs[j + 1] == tail[j];
    }
  }

  /** The uncovered text from the start of a span on is that from its end on, for the other spans. */
  lemma {:induction false} OutsidePastFirst(text: string, cs: seq<Candidate>)
    requires cs != [] && cs[0].start < cs[0].end <= |text|
    ensures Outside(text, cs[0].start, cs) == Outside(text, cs[0].end, cs[1..])
  {
    forall i: nat | cs[0].start <= i < cs[0].end
      ensures Covered(i, cs)
    {
    }
    OutsideSkips(text, cs[0].start, cs[0].end, cs);
    forall i: nat | cs[0].end <= i < |text|
      ensures Covered(i, cs) <==> Covered(i, cs[1..])
    {
      CoveredPastFirst(i, cs);
    }
    OutsideAgrees(text, cs[0].end, cs, cs[1..]);
  }

  lemma {:induction false} BeforeFirstUncovered(cs: seq<Candidate>, text: string, pos: nat)
    requires Ordered(cs, text) && (cs != [] ==> pos < cs[0].start)
    ensures !Covered(pos, cs)
  {
    forall j | 0 <= j < |cs|
      ensures pos < cs[j].start
    {
    }
  }

  /** With the placeholders blanked out, the rendering is exactly the uncovered characters. */
  lemma {:induction false} GapsAreTheUncoveredText(text: string, pos: nat, cs: seq<Candidate>)
    requires Ordered(cs, text) && pos <= |text| && (cs != [] ==> pos <= cs[0].start)
    ensures Render(text, pos, cs, map[]) == Outside(text, pos, cs)
    decreases |text| - pos
  {
    if cs != [] && pos == cs[0].start {
      OrderedTail(cs, text, 1);
      GapsAreTheUncoveredText(text, cs[0].end, cs[1..]);
      OutsidePastFirst(text, cs);
    } else if pos < |text| {
      GapsAreTheUncoveredText(text, pos + 1, cs);
      RenderFrom(text, pos, pos + 1, cs, map[]);
      BeforeFirstUncovered(cs, text, pos);
    }
  }

  lemma {:induction false} RenderAgrees(text: string, pos: nat, cs: seq<Candidate>, a: Names, b: Names)
    requires Ordered(cs, text) && pos <= |text| && (cs != [] ==> pos <= cs[0].start)
    requires forall c | c in cs :: Lookup(a, c) == Lookup(b, c)
    ensures Render(text, pos, cs, a) == Render(text, pos, cs, b)
    decreases |cs|
  {
    if cs != [] {
      RenderAgrees(text, cs[0].end, cs[1..], a, b);
    }
  }

  /** The three dictionaries that `_apply_mask` updates in place. */
  class MaskTables {
    var counts: map<PiiType, nat>
    var nextIndexes: map<PiiType, nat>
    var placeholders: Names

    ghost function Value(): Tables
      reads this
    {
      Tables(counts, nextIndexes, placeholders)
    }

    constructor ()
      ensures Value() == NO_TABLES
    {
      counts, nextIndexes, placeholders := map[], map[], map[];
    }

    /** Counts one span and numbers its value if it is new. */
    method NumberValue(c: Candidate)
      modifies this
      ensures Value() == Register(old(Value()), c)
    {
      counts := counts[c.kind := Get(counts, c.kind) + 1];
      if (c.kind, c.raw) !in placeholders {
        var index := Get(nextIndexes, c.kind) + 1;
        nextIndexes := nextIndexes[c.kind := index];
        placeholders := placeholders[(c.kind, c.raw) := Placeholder(c.kind, index)];
      }
    }

    /** First pass: all spans, left to right. */
    method NumberValues(sorted: seq<Candidate>)
      modifies this
      ensures Value() == RegisterAll(old(Value()), sorted)
    {
      for i := 0 to |sorted|
        invariant Value() == RegisterAll(old(Value()), sorted[..i])
      {
        assert sorted[..i + 1][..i] == sorted[..i];
        NumberValue(sorted[i]);
      }
      assert sorted[..|sorted|] == sorted;
    }

    /** `_apply_mask`: numbers the values left to right, then splices right to left. */
    method ApplyMask(text: string, candidates: seq<Candidate>) returns (masked: string)
      requires Disjoint(candidates) && forall c | c in candidates :: SpanOf(c, text)
      modifies this
      ensures Value() == RegisterAll(old(Value()), SortByStart(candidates))
      ensures Ordered(SortByStart(candidates), text)
      ensures masked == Render(text, 0, SortByStart(candidates), placeholders)
    {
      var sorted := SortByStart(candidates);
      SortOrders(candidates, text);
      NumberValues(sorted);
      NamesOnlyGrow(old(Value()), sorted);
      masked := SpliceRightToLeft(text, sorted, placeholders);
    }
  }

  /** Second pass: replacing spans in place from the right gives the left-to-right rendering. */
  method SpliceRightToLeft(text: string, sorted: seq<Candidate>, names: Names) returns (masked: string)
    requires Ordered(sorted, text) && forall c | c in sorted :: (c.kind, c.raw) in names
    ensures masked == Render(text, 0, sorted, names)
  {
    masked := text;
    var k := |sorted|;
    while k > 0
      invariant 0 <= k <= |sorted|
      invariant Ordered(sorted[k..], text)
      invariant masked == Render(text, 0, sorted[k..], names)
    {
      k := k - 1;
      var c := sorted[k];
      OrderedTail(sorted, text, k);
      assert [c] + sorted[k + 1..] == sorted[k..];
      SpliceStep(text, c, sorted[k + 1..], masked, names);
      masked := masked[..c.start] + names[(c.kind, c.raw)] + masked[c.end..];
    }
    assert sorted[0..] == sorted;
  }

  lemma {:induction false} OrderedTail(cs: seq<Candidate>, text: string, k: nat)
    requires Ordered(cs, text) && k <= |cs|
    ensures Ordered(cs[k..], text)
  {
  }

  // ---------------------------------------------------------------- texts and conversations

  datatype Message = Message(role: string, content: string)

  function TypeName(t: PiiType): string
  {
    match t
    case Email => "email"
    case Rrn => "rrn"
    case Card => "card"
    case Phone => "phone"
  }

  /** The known types among the requested names; unknown names are ignored. */
  function EnabledTypes(names: seq<string>): set<PiiType>
  {
    set t: PiiType | TypeName(t) in names
  }

  /** The spans of one text that get redacted, left to right. */
  function Redactions(detect: Detector, text: string, enabled: set<PiiType>): seq<Candidate>
  {
    SortByStart(Selected(detect, text, enabled))
  }

  lemma {:induction false} RedactionsOrdered(detect: Detector, text: string, enabled: set<PiiType>)
    requires Faithful(detect)
    ensures Ordered(Redactions(detect, text, enabled), text)
    ensures forall c :: c in Redactions(detect, text, enabled) <==> c in Selected(detect, text, enabled)
  {
    SelectedIsPrioritySelection(detect, text, enabled);
    SortOrders(Selected(detect, text, enabled), text);
  }

  /** All redactions of a conversation, in reading order. */
  function Stream(detect: Detector, messages: seq<Message>, enabled: set<PiiType>): seq<Candidate>
  {
    if messages == [] then []
    else Stream(detect, messages[..|messages| - 1], enabled)
         + Redactions(detect, messages[|messages| - 1].content, enabled)
  }

  /** `text` with its redactions replaced by the placeholders in `names`. */
  ghost function MaskWith(detect: Detector, text: string, enabled: set<PiiType>, names: Names): string
    requires Faithful(detect)
  {
    RedactionsOrdered(detect, text, enabled);
    Render(text, 0, Redactions(detect, text, enabled), names)
  }

  /** The whole conversation masked from the one table built over all of it. */
  ghost predicate MaskedFromOneTable(detect: Detector, messages: seq<Message>, enabled: set<PiiType>,
                                     masked: seq<Message>)
    requires Faithful(detect)
  {
    && |masked| == |messages|
    && forall i | 0 <= i < |messages| ::
         masked[i] == Message(messages[i].role,
                              MaskWith(detect, messages[i].content, enabled,
                                       RegisterAll(NO_TABLES, Stream(detect, messages, enabled)).names))
  }

  lemma {:induction false} Associative(x: seq<Candidate>, y: seq<Candidate>, z: seq<Candidate>)
    ensures (x + y) + z == x + (y + z)
  {
  }

  lemma {:induction false} StreamConcat(detect: Detector, a: seq<Message>, b: seq<Message>, enabled: set<PiiType>)
    ensures Stream(detect, a + b, enabled) == Stream(detect, a, enabled) + Stream(detect, b, enabled)
  {
    if b == [] {
      assert a + b == a;
    } else {
      var ab, n := a + b, |b| - 1;
      assert ab[..|ab| - 1] == a + b[..n] && ab[|ab| - 1] == b[n];
      StreamConcat(detect, a, b[..n], enabled);
      Associative(Stream(detect, a, enabled), Stream(detect, b[..n], enabled),
                  Redactions(detect, b[n].content, enabled));
    }
  }

  lemma {:induction false} StreamHolds(detect: Detector, messages: seq<Message>, enabled: set<PiiType>, i: nat)
    requires i < |messages|
    ensures forall c | c in Redactions(detect, messages[i].content, enabled) :: c in Stream(detect, messages, enabled)
  {
    if i < |messages| - 1 {
      StreamHolds(detect, messages[..|messages| - 1], enabled, i);
    }
  }

  /** Registering later messages does not alter how an earlier one is masked. */
  lemma {:induction false} LaterTablesAgree(detect: Detector, a: seq<Message>, b: seq<Message>,
                                            enabled: set<PiiType>, i: nat)
    requires Faithful(detect) && i < |a|
    ensures MaskWith(detect, a[i].content, enabled, RegisterAll(NO_TABLES, Stream(detect, a + b, enabled)).names)
         == MaskWith(detect, a[i].content, enabled, RegisterAll(NO_TABLES, Stream(detect, a, enabled)).names)
  {
    StreamConcat(detect, a, b, enabled);
    StreamHolds(detect, a, enabled, i);
    RegisterAllConcat(NO_TABLES, Stream(detect, a, enabled), Stream(detect, b, enabled));
    NamesOnlyGrow(NO_TABLES, Stream(detect, a, enabled));
    NamesOnlyGrow(RegisterAll(NO_TABLES, Stream(detect, a, enabled)), Stream(detect, b, enabled));
    RedactionsOrdered(detect, a[i].content, enabled);
    RenderAgrees(a[i].content, 0, Redactions(detect, a[i].content, enabled),
                 RegisterAll(NO_TABLES, Stream(detect, a + b, enabled)).names,
                 RegisterAll(NO_TABLES, Stream(detect, a, enabled)).names);
  }

  /** Masking is causal: appending messages leaves the masked form of the earlier ones alone. */
  lemma {:induction false} MaskingIsCausal(detect: Detector, a: seq<Message>, b: seq<Message>, enabled: set<PiiType>,
                                           short: seq<Message>, long: seq<Message>)
    requires Faithful(detect)
    requires MaskedFromOneTable(detect, a, enabled, short) && MaskedFromOneTable(detect, a + b, enabled, long)
    ensures short <= long
  {
    forall i | 0 <= i < |a|
      ensures short[i] == long[i]
    {
      LaterTablesAgree(detect, a, b, enabled, i);
      assert (a + b)[i] == a[i];
    }
  }

  /** The masked messages and the tables are those of the conversation so far. */
  ghost predicate Progress(detect: Detector, messages: seq<Message>, enabled: set<PiiType>,
                           masked: seq<Message>, tables: Tables)
    requires Faithful(detect)
  {
    && tables == RegisterAll(NO_TABLES, Stream(detect, messages, enabled))
    && MaskedFromOneTable(detect, messages, enabled, masked)
  }

  /** Masking one more message with the running table extends the masked conversation. */
  lemma {:induction false} ConversationStep(detect: Detector, messages: seq<Message>, next: Message,
                                            enabled: set<PiiType>, masked: seq<Message>, tables: Tables)
    requires Faithful(detect) && Progress(detect, messages, enabled, masked, tables)
    ensures var tables' := RegisterAll(tables, Redactions(detect, next.content, enabled));
      Progress(detect, messages + [next], enabled,
               masked + [Message(next.role, MaskWith(detect, next.content, enabled, tables'.names))], tables')
  {
    var all, n := messages + [next], |messages|;
    var own := Redactions(detect, next.content, enabled);
    var tables' := RegisterAll(tables, own);
    var masked' := masked + [Message(next.role, MaskWith(detect, next.content, enabled, tables'.names))];
    assert all[..n] == messages;
    RegisterAllConcat(NO_TABLES, Stream(detect, messages, enabled), own);
    assert tables' == RegisterAll(NO_TABLES, Stream(detect, all, enabled));
    forall i | 0 <= i < |all|
      ensures masked'[i] == Message(all[i].role, MaskWith(detect, all[i].content, enabled, tables'.names))
    {
      if i < n {
        LaterTablesAgree(detect, messages, [next], enabled, i);
      }
    }
  }

  lemma {:induction false} ConversationNext(detect: Detector, messages: seq<Message>, i: nat, enabled: set<PiiType>,
                                            masked: seq<Message>, tables: Tables)
    requires i < |messages| && Faithful(detect) && Progress(detect, messages[..i], enabled, masked, tables)
    ensures var next := messages[i];
      var tables' := RegisterAll(tables, Redactions(detect, next.content, enabled));
      Progress(detect, messages[..i + 1], enabled,
               masked + [Message(next.role, MaskWith(detect, next.content, enabled, tables'.names))], tables')
  {
    ConversationStep(detect, messages[..i], messages[i], enabled, masked, tables);
    assert messages[..i + 1] == messages[..i] + [messages[i]];
  }

  /** A text without redactions is left alone. */
  lemma {:induction false} NothingToRedact(detect: Detector, text: string, enabled: set<PiiType>, names: Names)
    requires Faithful(detect) && Selected(detect, text, enabled) == []
    ensures MaskWith(detect, text, enabled, names) == text && Redactions(detect, text, enabled) == []
  {
  }

  /** One message of the loop: its spans registered in the running tables and replaced. */
  method MaskContent(detect: Detector, text: string, enabled: set<PiiType>, tables: MaskTables)
    returns (content: string)
    requires Faithful(detect)
    modifies tables
    ensures tables.Value() == RegisterAll(old(tables.Value()), Redactions(detect, text, enabled))
    ensures content == MaskWith(detect, text, enabled, tables.placeholders)
  {
    var candidates := CollectCandidates(detect, text, enabled);
    SelectedIsPrioritySelection(detect, text, enabled);
    if candidates != [] {
      content := tables.ApplyMask(text, candidates);
    } else {
      NothingToRedact(detect, text, enabled, tables.placeholders);
      content := text;
    }
  }

  /** `mask_messages`: every message masked from the table of the whole conversation, and the
      counts are the numbers of spans replaced, per type. */
  method MaskMessages(detect: Detector, messages: seq<Message>, enabledTypes: seq<string>)
    returns (masked: seq<Message>, counts: map<PiiType, nat>)
    requires Faithful(detect)
    ensures MaskedFromOneTable(detect, messages, EnabledTypes(enabledTypes), masked)
    ensures CountsOf(counts, Stream(detect, messages, EnabledTypes(enabledTypes)))
  {
    var enabled := EnabledTypes(enabledTypes);
    RegisteredCounts(Stream(detect, messages, enabled));
    if enabled == {} {
      NothingEnabled(detect, messages);
      return messages, map[];
    }

    var tables := new MaskTables();
    masked := [];
    for i := 0 to |messages|
      invariant Progress(detect, messages[..i], enabled, masked, tables.Value())
    {
      ConversationNext(detect, messages, i, enabled, masked, tables.Value());
      var content := MaskContent(detect, messages[i].content, enabled, tables);
      masked := masked + [Message(messages[i].role, content)];
    }
    assert messages[..|messages|] == messages;
    counts := tables.counts;
  }

  /** `counts` reports, per type, how many of the spans `cs` there are, without zero entries. */
  ghost predicate CountsOf(counts: map<PiiType, nat>, cs: seq<Candidate>)
  {
    forall t :: (t in counts <==> CountOf(cs, t) > 0) && Get(counts, t) == CountOf(cs, t)
  }

  lemma {:induction false} RegisteredCounts(cs: seq<Candidate>)
    ensures CountsOf(RegisterAll(NO_TABLES, cs).counts, cs)
  {
    var counts := RegisterAll(NO_TABLES, cs).counts;
    forall t
      ensures (t in counts <==> CountOf(cs, t) > 0) && Get(counts, t) == CountOf(cs, t)
    {
      RegisteringDescribesType(cs, t);
    }
  }

  lemma {:induction false} NothingEnabled(detect: Detector, messages: seq<Message>)
    requires Faithful(detect)
    ensures Stream(detect, messages, {}) == []
    ensures MaskedFromOneTable(detect, messages, {}, messages)
  {
    if messages != [] {
      var n := |messages| - 1;
      NothingEnabled(detect, messages[..n]);
      NoneSelected(detect, messages[n].content);
      NothingToRedact(detect, messages[n].content, {}, map[]);
      ConversationStep(detect, messages[..n], messages[n], {}, messages[..n], NO_TABLES);
      assert messages == messages[..n] + [messages[n]];
    }
  }

  lemma {:induction false} NoneSelected(detect: Detector, text: string, kinds: seq<PiiType> := PRIORITY)
    ensures Collect(kinds, detect, text, {}, []) == []
  {
    if kinds != [] {
      NoneSelected(detect, text, kinds[1..]);
    }
  }

  /** `mask_text` masks a text exactly as the one message of a conversation. */
  method MaskText(detect: Detector, text: string, enabledTypes: seq<string>)
    returns (masked: string, counts: map<PiiType, nat>)
    requires Faithful(detect)
    ensures var enabled := EnabledTypes(enabledTypes);
      masked == MaskWith(detect, text, enabled, RegisterAll(NO_TABLES, Redactions(detect, text, enabled)).names)
    ensures CountsOf(counts, Selected(detect, text, EnabledTypes(enabledTypes)))
  {
    var enabled := EnabledTypes(enabledTypes);
    ghost var names := RegisterAll(NO_TABLES, Redactions(detect, text, enabled)).names;
    SelectedIsPrioritySelection(detect, text, enabled);
    if enabled == {} {
      NoneSelected(detect, text);
      NothingToRedact(detect, text, enabled, names);
      return text, map[];
    }
    var candidates := CollectCandidates(detect, text, enabled);
    if candidates == [] {
      NothingToRedact(detect, text, enabled, names);
      return text, map[];
    }
    var tables := new MaskTables();
    masked := tables.ApplyMask(text, candidates);
    counts := tables.counts;
    RegisteredCounts(Redactions(detect, text, enabled));
    forall t: PiiType
      ensures CountOf(Redactions(detect, text, enabled), t) == CountOf(candidates, t)
    {
      SortCount(candidates, t);
    }
  }

  // ---------------------------------------------------------------- what the configured names do

  /** The configuration names the type. */
  predicate Named(t: PiiType, names: seq<string>)
  {
    match t
    case Email => "email" in names
    case Rrn => "rrn" in names
    case Card => "card" in names
    case Phone => "phone" in names
  }

  /** The enabled types are the named ones. */
  lemma {:induction false} EnabledIffNamed(names: seq<string>, t: PiiType)
    ensures t in EnabledTypes(names) <==> Named(t, names)
  {
  }

  /** Whatever a detector reports in a message, if its type is named, loses a character to a span
      that is replaced. */
  lemma {:induction false} NamedTypesAreMasked(detect: Detector, messages: seq<Message>, names: seq<string>, i: nat,
                                               c: Candidate) returns (a: Candidate, k: nat)
    requires Faithful(detect) && i < |messages| && c in detect(c.kind, messages[i].content) && Named(c.kind, names)
    ensures a in Redactions(detect, messages[i].content, EnabledTypes(names))
    ensures a.start <= k < a.end && c.start <= k < c.end
  {
    var enabled, text := EnabledTypes(names), messages[i].content;
    EnabledIffNamed(names, c.kind);
    a, k := EveryDetectionRedacted(detect, text, enabled, c);
    RedactionsOrdered(detect, text, enabled);
  }

  /** Only reported spans of named types are replaced. */
  lemma {:induction false} OnlyNamedTypesAreMasked(detect: Detector, messages: seq<Message>, names: seq<string>, i: nat,
                                                   c: Candidate)
    requires Faithful(detect) && i < |messages|
    requires c in Redactions(detect, messages[i].content, EnabledTypes(names))
    ensures Named(c.kind, names) && c in detect(c.kind, messages[i].content)
  {
    var enabled, text := EnabledTypes(names), messages[i].content;
    RedactionsOrdered(detect, text, enabled);
    SelectedIsPrioritySelection(detect, text, enabled);
    assert Detected(detect, text, enabled, c);
    EnabledIffNamed(names, c.kind);
  }

  /** Unknown names change nothing, nor do repetitions or the order of names. */
  lemma {:induction false} OnlyKnownNamesCount(names: seq<string>, others: seq<string>)
    requires forall t :: Named(t, names) <==> Named(t, others)
    ensures EnabledTypes(names) == EnabledTypes(others)
  {
    forall t: PiiType
      ensures t in EnabledTypes(names) <==> t in EnabledTypes(others)
    {
      EnabledIffNamed(names, t);
      EnabledIffNamed(others, t);
      assert Named(t, names) <==> Named(t, others);
    }
  }

  lemma {:induction false} UnknownNameIgnored(names: seq<string>, name: string)
    requires name !in ["email", "rrn", "card", "phone"]
    ensures EnabledTypes(names + [name]) == EnabledTypes(names)
  {
    var known := ["email", "rrn", "card", "phone"];
    assert known[0] in known && known[1] in known && known[2] in known && known[3] in known;
    OnlyKnownNamesCount(names + [name], names);
  }
}
